# Multi-factor ranking and portfolio construction, modelled in Dafny

This project models the deterministic core of the finrobot multi-factor
portfolio scripts. The core has three parts:

- **The four factor families.** Value, quality, growth and momentum. Each
  family derives metrics per ticker from provider data. It then ranks every
  metric column, averages each asset's ranks into a composite rank and
  sorts ascending by the composite.
- **The rank combiner.** It merges the families' composite ranks into one
  weighted score per ticker.
- **Portfolio construction.** It keeps the best `top_n` tickers, turns
  their prices into daily returns and asks an optimiser for weights. It
  reports the weights with their annualised return, volatility and Sharpe
  ratio. When optimisation fails for any reason, it falls back to equal
  weights.

Numbers are exact `real`s, and a missing value (pandas' NaN) is
`Option.None`. A ranker's or the combiner's output is specified as "some
ordering of the rows, sorted by key, missing keys last". `sort_values` is
not stable, and the combined index comes from a `set`, so no tie-break is
promised among equal keys.

The modules follow the scripts:

- `Ranking` is the filter/rank/composite/sort procedure the four rankers
  share. `ValueFactor`, `QualityFactor`, `GrowthFactor` and
  `MomentumFactor` give each family its metric rules and its rank
  columns.
- `Medians` and `WeightedSums` are the median fill and the weighted sum.
  `Combiner` is `combine_factor_rankings`.
- `Matrices` holds the numpy products and `PortfolioStatistics` holds
  `calculate_portfolio_statistics`.
- `PriceReturns` is `price_data[top].pct_change().dropna()`.
- `Optimizer` is `optimize_portfolio`. `MultiFactorPortfolio` is
  `create_multi_factor_portfolio`.

The code that works step by step is modelled as methods with loop
invariants, each proved against a specification function or predicate:

- building the metric dicts;
- writing the rank columns into the working copy;
- the combiner's loops: ticker union, rank columns, median fill and
  weighted sum.

The combiner reproduces a behaviour of the code:

- A family gets a rank column only when it is `value` and its table has
  a `'Composite Value Rank'` column, or it is `momentum` and its table
  has a `'Composite Momentum Rank'` column (lines 71-76 of
  `scripts/portfolio_optimization.py`). The family type carries its
  table's column labels for this test.
- Any other family, or a value or momentum table without its composite
  column, therefore makes the weighted sum raise `KeyError` (line 86).
  `Combiner.CompositeColumnRequired` states the second case.
- So the driver's call with a weighted `quality` family fails:
  `Combiner.QualityRankingsRejected` states this.

Where the two accounts differ, the model follows the code:

- An unknown objective name is also caught by the `except Exception` of
  `create_multi_factor_portfolio`, not only a solver failure. The
  portfolio then falls back to equal weights
  (`MultiFactorPortfolio.UnknownObjectiveFallsBack`).
- `pct_change()` forward-fills a missing price before dividing
  (`fill_method='pad'`).

## Model

| member | source | states |
|---|---|---|
| Ranking.RankWithin | scripts/value_factor_analysis.py:108 | every average-tie rank of a surviving value lies in [1, m], m the number of survivors |
| Ranking.RankStrictlyMonotone | scripts/value_factor_analysis.py:108 | a value ranked strictly before another gets a strictly smaller rank |
| Ranking.RankOrderIff | scripts/value_factor_analysis.py:108 | ranks order two survivors exactly as the direction orders their values, and equal ranks mean equal values |
| Ranking.RankSum | scripts/value_factor_analysis.py:108 | the ranks of m survivors add up to m(m+1)/2: ties redistribute positions 1..m without losing any |
| Ranking.Survivors | scripts/value_factor_analysis.py:107 | the values that pass the `> 0` filter (or every present value), never more than the column holds |
| Ranking.SurvivorMember | scripts/value_factor_analysis.py:107 | every cell that passes the filter is among the survivors that are ranked |
| Ranking.RankColumn | scripts/value_factor_analysis.py:107-108 | a cell gets a rank exactly when it passes the filter, and that rank lies in [1, m] |
| Ranking.RankColumnOrder | scripts/value_factor_analysis.py:107-108 | within one column, ranks follow the direction exactly and equal ranks mean equal values |
| Ranking.RankColumnSum | scripts/value_factor_analysis.py:107-108 | the ranks of one column add up to m(m+1)/2, m the number of cells that pass |
| Ranking.MeanPresent | scripts/value_factor_analysis.py:127-128 | the row mean skips missing ranks, and is missing exactly when every rank is missing |
| Ranking.MeanWithin | scripts/value_factor_analysis.py:127-128 | a composite lies within any bounds of the ranks it averages |
| Ranking.Put | scripts/value_factor_analysis.py:67 | assigning a ticker's dict entry adds that ticker, keeps every other ticker's entry and replaces the old entry |
| Ranking.PutKeeps | scripts/value_factor_analysis.py:67 | setting one ticker's entry leaves the entries of other tickers in place |
| Ranking.FromRows | scripts/value_factor_analysis.py:81 | `from_dict(orient='index')` keeps the rows and has every metric column when some ticker exists |
| Ranking.FirstMissing | scripts/value_factor_analysis.py:107 | the first required metric column that is absent (the `KeyError`), or none when all exist |
| Ranking.ActiveSpecs | scripts/momentum_factor_analysis.py:126-133 | the rank columns whose metric column exists, and all of those |
| Ranking.ActiveSpecsUniform | scripts/momentum_factor_analysis.py:126-133 | when every metric column exists all rank columns are produced; when none does, none is |
| Ranking.AllRequiredActive | scripts/value_factor_analysis.py:107-120 | when every rank column is unconditional and none is missing, every one is produced |
| Ranking.RankingsOf | scripts/value_factor_analysis.py:104-120 | the `rankings` dict: one rank column per active spec, each as long as the table |
| Ranking.AddRankColumn | scripts/value_factor_analysis.py:123-124 | writing a rank column into the working copy appends one rank to every row and changes nothing else |
| Ranking.WithComposites | scripts/value_factor_analysis.py:127-128 | every row's composite is the mean of its present ranks |
| Ranking.RankTable | scripts/value_factor_analysis.py:99-131 | fails exactly on an absent required column with that column's error; otherwise returns a ranking: the copy with rank columns and composites, permuted and sorted ascending by composite with missing composites last |
| Ranking.RankingKeepsAssets | scripts/value_factor_analysis.py:100 | the ranked table holds exactly the input assets, one ranked row each, with their metrics unchanged |
| Ranking.RankedRowFacts | scripts/value_factor_analysis.py:107-128 | a ranked asset has a rank for a metric exactly when its cell passes the filter; the rank is within [1, m]; the composite is the mean of its present ranks, within [1, rows] |
| Ranking.RankedPairOrder | scripts/value_factor_analysis.py:107-120 | two ranked assets' ranks for one metric compare exactly as their metric values do in that direction |
| Ranking.RankedPairAt | scripts/value_factor_analysis.py:107-120 | for any rank column, which of two assets are ranked and how their ranks compare |
| Ranking.AllMissingUnranked | scripts/value_factor_analysis.py:128-131 | an asset with every metric missing has no rank and no composite, and sorts after every ranked asset |
| ValueFactor.ValueMetrics | scripts/value_factor_analysis.py:67-74 | the six value metrics of one ticker |
| ValueFactor.ValueRows | scripts/value_factor_analysis.py:61-78 | the dict after the loop: one well-shaped row per fetched ticker; a ticker whose `info` raises is skipped |
| ValueFactor.ValueTable | scripts/value_factor_analysis.py:81 | the value table is well formed, six columns wide, and holds the rows of the loop |
| ValueFactor.CalculateValueFactors | scripts/value_factor_analysis.py:30-87 | the loop over the latest prices builds exactly the value table |
| ValueFactor.ValueRowsTickers | scripts/value_factor_analysis.py:61-78 | a ticker is in the table exactly when it has a latest price and its `info` was fetched |
| ValueFactor.ValueRowsMetrics | scripts/value_factor_analysis.py:67-74 | every row carries the metrics of its own fetched `info` and one of its latest prices |
| ValueFactor.RankValueStocks | scripts/value_factor_analysis.py:90-137 | fails exactly when a value metric column is absent; otherwise the result is the ranking of the copy by P/E, P/B, dividend yield and EV/EBITDA |
| ValueFactor.ValueRankingFailsOnlyWhenEmpty | scripts/value_factor_analysis.py:81-108 | a value table raises exactly when it was built from no ticker |
| ValueFactor.ValueRankSemantics | scripts/value_factor_analysis.py:102-120 | P/E, P/B and EV/EBITDA ranks grow with the metric and the dividend rank shrinks as the yield grows; an asset is ranked on a metric exactly when it is present and positive; equal ranks mean equal values |
| ValueFactor.ZeroDividendUnranked | scripts/value_factor_analysis.py:71 | a provider dividend yield that is missing or 0 leaves the ticker without a dividend rank |
| QualityFactor.LineRatio | scripts/quality_factor_analysis.py:61-88 | a ratio of line items is present only when both items exist, and then it is their quotient (missing for a zero denominator) |
| QualityFactor.InfoDebtToEquity | scripts/quality_factor_analysis.py:104 | the `info` debt-to-equity is present exactly when the provider value is truthy, and is that percentage divided by 100 |
| QualityFactor.StatementMetrics | scripts/quality_factor_analysis.py:54-98 | the six quality metrics from three non-empty statements |
| QualityFactor.InfoMetrics | scripts/quality_factor_analysis.py:100-119 | the six quality metrics from `info` alone |
| QualityFactor.QualityMetrics | scripts/quality_factor_analysis.py:43-131 | a ticker's six metrics by the statements, the `info` fallback, or all missing when `info` raised |
| QualityFactor.QualityRows | scripts/quality_factor_analysis.py:42-131 | the dict after the loop, one six-wide row per entry |
| QualityFactor.QualityTable | scripts/quality_factor_analysis.py:134 | the quality table is well formed, six columns wide, and holds the rows of the loop |
| QualityFactor.CalculateQualityFactors | scripts/quality_factor_analysis.py:30-140 | the loop over the tickers builds exactly the quality table |
| QualityFactor.QualityRowsContents | scripts/quality_factor_analysis.py:42-131 | every listed ticker, and no other, has a row, and each row holds that ticker's metrics |
| QualityFactor.QualityRowMetrics | scripts/quality_factor_analysis.py:91-131 | a row of the quality table holds its ticker's metrics |
| QualityFactor.RankQualityStocks | scripts/quality_factor_analysis.py:143-194 | fails exactly when a quality metric column is absent; otherwise the result is the ranking of the copy by the five quality metrics |
| QualityFactor.QualityRankSemantics | scripts/quality_factor_analysis.py:155-177 | ROE, ROA, operating margin and FCF yield rank descending and D/E ascending; only strictly positive values are ranked; equal ranks mean equal values |
| QualityFactor.QualityRankedRow | scripts/quality_factor_analysis.py:160-185 | a ranked quality row carries its ticker's metrics and is ranked on a metric exactly when that metric is positive |
| QualityFactor.FailedTickerUnranked | scripts/quality_factor_analysis.py:122-131 | a ticker whose processing raised is kept, gets no rank and no composite, and sorts after every ranked ticker |
| QualityFactor.InfoFallback | scripts/quality_factor_analysis.py:54-119 | when the statements raised or any of the three is empty, ROE comes from `info`, D/E is ranked only for a truthy provider value, and FCF yield is never ranked |
| GrowthFactor.GrowthRate | scripts/growth_factor_analysis.py:69-73 | growth is present exactly when two periods exist and the earlier is non-zero, and then (growth + 1) × previous = latest |
| GrowthFactor.GrowthPositiveIffGrew | scripts/growth_factor_analysis.py:71 | over a positive base, growth is positive exactly when the value grew |
| GrowthFactor.GrowthSignOverLoss | scripts/growth_factor_analysis.py:71 | over a negative base the sign flips: growth is positive exactly when the value fell |
| GrowthFactor.LineGrowth | scripts/growth_factor_analysis.py:68-85 | an absent line item gives missing growth; a present one gives the growth of its values |
| GrowthFactor.LineGrowthNeedsTwoPeriods | scripts/growth_factor_analysis.py:68-85 | on a statement with one value per period per line, fewer than two periods give no growth, and two or more give growth whenever the two newest values are present with a nonzero base |
| GrowthFactor.QuarterlyGrowth | scripts/growth_factor_analysis.py:91-108 | empty quarterly statements give missing growth; otherwise the line item's growth |
| GrowthFactor.GrowthMetrics | scripts/growth_factor_analysis.py:56-126 | a ticker is skipped exactly when its annual statements are empty; otherwise it has four growth metrics |
| GrowthFactor.GrowthRows | scripts/growth_factor_analysis.py:55-126 | the dict after the loop, one four-wide row per entry |
| GrowthFactor.GrowthTable | scripts/growth_factor_analysis.py:129 | the growth table is well formed, four columns wide, and holds the rows of the loop |
| GrowthFactor.CalculateGrowthFactors | scripts/growth_factor_analysis.py:32-135 | the loop over the tickers builds exactly the growth table |
| GrowthFactor.GrowthRowsContents | scripts/growth_factor_analysis.py:55-126 | a ticker has a row exactly when it is listed and not skipped, and the row holds its metrics |
| GrowthFactor.GrowthRowMetrics | scripts/growth_factor_analysis.py:111-126 | a row of the growth table holds its ticker's metrics |
| GrowthFactor.RankGrowthStocks | scripts/growth_factor_analysis.py:137-186 | fails exactly when a growth metric column is absent; otherwise the result is the ranking of the copy by the four growth metrics |
| GrowthFactor.GrowthRankSemantics | scripts/growth_factor_analysis.py:152-169 | every growth metric ranks descending over strictly positive growth only; equal ranks mean equal values |
| GrowthFactor.FailedTickerUnranked | scripts/growth_factor_analysis.py:119-126 | a ticker whose processing raised is kept with no rank and no composite, and sorts after every ranked ticker |
| MomentumFactor.Present | scripts/momentum_factor_analysis.py:70 | `dropna()` keeps at most the prices it is given |
| MomentumFactor.PresentOfComplete | scripts/momentum_factor_analysis.py:70 | without gaps, dropping missing prices changes nothing |
| MomentumFactor.LastPresent | scripts/momentum_factor_analysis.py:78 | the current price is missing exactly when the ticker has no price |
| MomentumFactor.PeriodReturn | scripts/momentum_factor_analysis.py:62-77 | the k-period return is missing when the panel has no more than k dates |
| MomentumFactor.PeriodReturnOfComplete | scripts/momentum_factor_analysis.py:62-77 | on a series without gaps, the k-period return is 100 × (last / price k dates earlier − 1) |
| MomentumFactor.MovingAverageWithin | scripts/momentum_factor_analysis.py:83-84 | a moving average lies between the lowest and highest price of its window |
| MomentumFactor.MomentumMetrics | scripts/momentum_factor_analysis.py:70-90 | ten metrics; the current price is the last present price; moving averages exist exactly when more than 200 prices are present |
| MomentumFactor.GoldenCross | scripts/momentum_factor_analysis.py:90 | for positive prices the 50/200 indicator exists, and exceeds one exactly when the 50-day average is above the 200-day one |
| MomentumFactor.FirstWithoutPrices | scripts/momentum_factor_analysis.py:68-78 | the first ticker without any price, where `iloc[-1]` raises, or none when all have prices |
| MomentumFactor.MomentumRows | scripts/momentum_factor_analysis.py:68-92 | the dict after the loop; rows without moving averages have all five MA cells missing |
| MomentumFactor.MomentumTable | scripts/momentum_factor_analysis.py:95 | every return column exists when some ticker does, and an MA column exists exactly when some row has moving averages |
| MomentumFactor.MomentumFactors | scripts/momentum_factor_analysis.py:30-101 | fails exactly when the panel has no dates or some ticker has no price |
| MomentumFactor.CalculateMomentumFactors | scripts/momentum_factor_analysis.py:58-101 | the loop over the tickers gives exactly the momentum table or error |
| MomentumFactor.MomentumRowsComplete | scripts/momentum_factor_analysis.py:68-92 | with distinct tickers, every ticker gets the row of its own prices |
| MomentumFactor.MomentumRowsSound | scripts/momentum_factor_analysis.py:68-92 | every row is the row of some ticker's own prices |
| MomentumFactor.MAColumnsExist | scripts/momentum_factor_analysis.py:82-95 | the moving-average columns exist exactly when some ticker has more than 200 prices |
| MomentumFactor.RankMomentumStocks | scripts/momentum_factor_analysis.py:104-150 | fails exactly when a return column is absent; otherwise the result ranks the four returns and each moving-average metric whose column exists |
| MomentumFactor.MomentumActiveSpecs | scripts/momentum_factor_analysis.py:119-133 | the four return ranks always; then the MA ranks, all of them or none according to the columns |
| MomentumFactor.MomentumRankSemantics | scripts/momentum_factor_analysis.py:116-133 | momentum ranks have no positivity filter: every present metric, negative ones included, is ranked descending |
| MomentumFactor.MomentumSpecUniform | scripts/momentum_factor_analysis.py:120-133 | every momentum rank is descending and unfiltered |
| Common.Ratio | scripts/quality_factor_analysis.py:62 | a quotient is present exactly when both values are and the divisor is non-zero, and quotient × divisor = dividend |
| Common.Scale | scripts/momentum_factor_analysis.py:74 | scaling keeps missing values missing and multiplies present ones |
| Common.Lookup | scripts/portfolio_optimization.py:86 | `weights[factor]`: missing exactly when no entry has the key, else the value of an entry with it |
| Common.KeyLeTotal | scripts/value_factor_analysis.py:131 | the `sort_values` order (NaN last) relates any two keys |
| Common.KeyLeTransitive | scripts/value_factor_analysis.py:131 | the `sort_values` order is transitive |
| Common.SortBy | scripts/value_factor_analysis.py:131 | one ordering `sort_values` may return: a permutation sorted ascending with missing keys last |
| Medians.SortReals | scripts/portfolio_optimization.py:80 | the values in ascending order, as a permutation |
| Medians.Median | scripts/portfolio_optimization.py:80 | `median()` of the present values is missing exactly when there are none |
| Medians.MedianHalves | scripts/portfolio_optimization.py:80 | at least half the values are at most the median and at least half are at least it |
| Medians.MedianWithin | scripts/portfolio_optimization.py:80 | the median lies between the smallest and largest value |
| WeightedSums.AddTerm | scripts/portfolio_optimization.py:86 | one `+= rank * weight` step: missing if either side is missing, else the sum |
| WeightedSums.WeightedSumMissingIff | scripts/portfolio_optimization.py:84-86 | the weighted composite is missing exactly when one of its ranks is |
| WeightedSums.WeightedSumIsDot | scripts/portfolio_optimization.py:84-86 | with every rank present, the weighted composite is Σ rank × weight |
| WeightedSums.WeightedSumWithin | scripts/portfolio_optimization.py:84-86 | with non-negative weights summing to one, the weighted composite lies within the ranks' bounds |
| Combiner.DefaultWeights | scripts/portfolio_optimization.py:55-56 | without weights each of the k families weighs 1/k |
| Combiner.Normalize | scripts/portfolio_optimization.py:59-60 | every weight divided by the total, keys kept |
| Combiner.NormalizedSumToOne | scripts/portfolio_optimization.py:58-60 | normalised weights sum to one |
| Combiner.DefaultWeightsEqual | scripts/portfolio_optimization.py:55-60 | default weights sum to one and normalisation leaves them unchanged |
| Combiner.NormalizedConvex | scripts/portfolio_optimization.py:58-60 | normalising non-negative weights with a positive total keeps keys, signs, and makes them sum to one |
| Combiner.FirstUnweighable | scripts/portfolio_optimization.py:71-86 | the first family, in order, without a rank column or without a weight: the one the weighted sum raises on |
| Combiner.UnionMember | scripts/portfolio_optimization.py:62-65 | a ticker is in the union exactly when some family lists it |
| Combiner.TickerUnion | scripts/portfolio_optimization.py:62-65 | the loop collects exactly the union of the families' tickers |
| Combiner.ListTickers | scripts/portfolio_optimization.py:68 | `list(all_tickers)`: every ticker of the set once |
| Combiner.TickersPermutation | scripts/portfolio_optimization.py:89 | reordering the rows keeps their tickers distinct |
| Combiner.RankColumns | scripts/portfolio_optimization.py:70-76 | a family gets a rank column exactly when it is `value` with a `'Composite Value Rank'` column or `momentum` with a `'Composite Momentum Rank'` column, holding its composite of each ticker of the index |
| Combiner.FillMedians | scripts/portfolio_optimization.py:78-81 | `fillna(median)` on every rank column: each ticker gets its filled rank |
| Combiner.AddColumn | scripts/portfolio_optimization.py:86 | one family's `+=` extends every partial score by that family's term |
| Combiner.WeighFamily | scripts/portfolio_optimization.py:85-86 | one pass of the family loop: raises on the first unweighable family, otherwise adds its term |
| Combiner.WeightedComposite | scripts/portfolio_optimization.py:83-86 | fails exactly with the first unweighable family; otherwise each ticker's score is its weighted composite |
| Combiner.BuildRows | scripts/portfolio_optimization.py:68-86 | the combined frame before sorting: one row per index entry with its ranks and score |
| Combiner.SortedRowsCombined | scripts/portfolio_optimization.py:89 | sorting the scored rows of the union gives a valid combined table |
| Combiner.CombineFactorRankings | scripts/portfolio_optimization.py:40-91 | fails exactly on no rankings, a zero total weight, a family without rank column or without weight; otherwise returns the union's tickers once each, with filled ranks and weighted scores, sorted ascending |
| Combiner.CombineWeighted | scripts/portfolio_optimization.py:62-91 | after the weights are fixed: fails exactly with the first unweighable family, otherwise the combined table |
| Combiner.FilledRankWithin | scripts/portfolio_optimization.py:78-81 | a filled rank is missing exactly when the family has no composite at all, and otherwise lies within the family's composite range |
| Combiner.MedianFilled | scripts/portfolio_optimization.py:78-81 | a ticker missing from a family gets the median of that family's present composites |
| Combiner.ScoreMissingIff | scripts/portfolio_optimization.py:83-86 | a combined score is missing exactly when one of the ticker's filled ranks is |
| Combiner.ScoreWithin | scripts/portfolio_optimization.py:83-86 | with non-negative weights summing to one, a score lies within the bounds of the family ranks |
| Combiner.ScoreOfTwo | scripts/portfolio_optimization.py:83-86 | over two families the score is a·x + b·y |
| Combiner.DefaultValueMomentum | scripts/portfolio_optimization.py:55-86 | with default weights, a ticker missing from momentum scores the mean of its value rank and momentum's median |
| Combiner.ValueMomentumDefaults | scripts/portfolio_optimization.py:51-86 | value and momentum rankings that have their composite columns get 0.5 each without weights and pass the checks |
| Combiner.CompositeColumnRequired | scripts/portfolio_optimization.py:70-86 | a `value` or `momentum` table without its composite column gets no rank column, and the weighted sum raises on it |
| Combiner.QualityRankingsRejected | scripts/portfolio_optimization.py:71-86 | value, momentum and quality weighted 0.4/0.3/0.3, as the driver passes them, fail on the missing `quality` rank column, whatever the quality table's columns |
| Matrices.DotOnes | scripts/portfolio_optimization.py:103 | the dot product with ones is the plain sum |
| Matrices.DotSelfNonnegative | scripts/portfolio_optimization.py:106 | a sum of squares is never negative |
| Matrices.BilinearSwap | scripts/portfolio_optimization.py:106 | uᵀ(mᵀv) = vᵀ(mu) for any table m |
| PortfolioStatistics.ColumnMeans | scripts/portfolio_optimization.py:103 | `returns.mean()`: the mean of every column |
| PortfolioStatistics.Covariance | scripts/portfolio_optimization.py:106 | `returns.cov()`: the cross products of the deviations divided by rows − 1 |
| PortfolioStatistics.AnnualCovariance | scripts/portfolio_optimization.py:106 | every covariance entry times 252 |
| PortfolioStatistics.AnnualReturn | scripts/portfolio_optimization.py:103 | the annual return exists exactly when the column means do |
| PortfolioStatistics.AnnualVariance | scripts/portfolio_optimization.py:106 | the annual variance exists exactly when the sample covariance does |
| PortfolioStatistics.CalculatePortfolioStatistics | scripts/portfolio_optimization.py:100-115 | return as defined; volatility is sqrt of the annual variance; the Sharpe ratio exists exactly when volatility is non-zero, and Sharpe × volatility = return |
| PortfolioStatistics.MeanOfDaily | scripts/portfolio_optimization.py:103 | Σ meanᵢ·wᵢ is the mean daily return of the weighted portfolio |
| PortfolioStatistics.AnnualReturnIsMeanDaily | scripts/portfolio_optimization.py:103 | the annual return is 252 × the portfolio's mean daily return |
| PortfolioStatistics.DeviationsWeighted | scripts/portfolio_optimization.py:106 | the weighted deviations are the portfolio's centred daily returns |
| PortfolioStatistics.CrossProductsForm | scripts/portfolio_optimization.py:106 | wᵀGw for the cross products G of d is the sum of squares of d·w |
| PortfolioStatistics.AnnualCovarianceScaled | scripts/portfolio_optimization.py:106 | the annual covariance applied to w is the cross products applied to w, scaled by 252/(rows − 1) |
| PortfolioStatistics.CrossProductsCentered | scripts/portfolio_optimization.py:106 | wᵀGw is the sum of squares of the portfolio's centred daily returns |
| PortfolioStatistics.AnnualVarianceIsDailyVariance | scripts/portfolio_optimization.py:106 | wᵀ(252·Cov)w is 252 × the sample variance of the portfolio's daily returns |
| PortfolioStatistics.SampleVarianceNonnegative | scripts/portfolio_optimization.py:106 | a sample variance is never negative |
| PortfolioStatistics.AnnualVarianceNonnegative | scripts/portfolio_optimization.py:106 | the annual variance is never negative, so its square root is real |
| PriceReturns.Missing | scripts/portfolio_optimization.py:196 | the wanted tickers without a column, in order |
| PriceReturns.SelectColumns | scripts/portfolio_optimization.py:196 | `price_data[top]` raises exactly when a ticker has no column, naming exactly those; otherwise the columns of `top`, in that order |
| PriceReturns.PaddedIsLatest | scripts/portfolio_optimization.py:196 | the forward-filled price is the latest present price at or before the date, missing only before the first |
| PriceReturns.ChangeCompounds | scripts/portfolio_optimization.py:196 | a return compounds the previous padded price into the current one: (1 + r)·prev = cur |
| PriceReturns.ChangeOfPresent | scripts/portfolio_optimization.py:196 | between two present prices the return is their ratio minus one |
| PriceReturns.PctChange | scripts/portfolio_optimization.py:196 | `pct_change()` applied column by column, same shape |
| PriceReturns.Values | scripts/portfolio_optimization.py:196 | the numbers of a complete row |
| PriceReturns.KeptBeforeExactly | scripts/portfolio_optimization.py:196 | `dropna()` keeps every complete date, once, in increasing order |
| PriceReturns.DropMissing | scripts/portfolio_optimization.py:196 | `dropna()`: the complete rows in order, as numbers |
| PriceReturns.DailyReturnTable | scripts/portfolio_optimization.py:196 | raises exactly when a ticker has no price column; otherwise one return per selected ticker per kept date, never more dates than prices |
| PriceReturns.ReturnDatesBounded | scripts/portfolio_optimization.py:196 | no more return dates than price dates |
| PriceReturns.FirstDateDropped | scripts/portfolio_optimization.py:196 | with at least one stock, the first date is always dropped |
| PriceReturns.KeptIffAllReturns | scripts/portfolio_optimization.py:196 | a date is kept exactly when every selected stock has a return on it |
| PriceReturns.KeptReturn | scripts/portfolio_optimization.py:196 | each kept row holds the returns of its own date |
| PriceReturns.FullPricesKeepAllButFirst | scripts/portfolio_optimization.py:196 | with every price present and non-zero, exactly the first date is dropped |
| PriceReturns.FullPricesReturns | scripts/portfolio_optimization.py:196 | with every price present and non-zero, the returns are p[d+1]/p[d] − 1 |
| Optimizer.ParseObjective | scripts/portfolio_optimization.py:142-158 | a recognised name is the name of the objective it selects |
| Optimizer.ParseObjectiveName | scripts/portfolio_optimization.py:142-158 | every objective is recognised by its own name |
| Optimizer.ObjectiveValue | scripts/portfolio_optimization.py:142-156 | the objective is undefined for weights of the wrong length; `max_return` is defined exactly when the means are, `min_volatility` exactly when the covariance is |
| Optimizer.MaxReturnOrientation | scripts/portfolio_optimization.py:152-156 | minimising the `max_return` objective maximises the annual return |
| Optimizer.MinVolatilityOrientation | scripts/portfolio_optimization.py:147-151 | for a monotone square root, a smaller annual variance gives a smaller `min_volatility` objective |
| Optimizer.SharpeOrientation | scripts/portfolio_optimization.py:142-146 | minimising the `sharpe` objective maximises the Sharpe ratio |
| Optimizer.EqualWeights | scripts/portfolio_optimization.py:133 | n weights, each 1/n |
| Optimizer.EqualWeightsSumToOne | scripts/portfolio_optimization.py:133 | equal weights sum to one |
| Optimizer.MakeProblem | scripts/portfolio_optimization.py:130-167 | the solver gets equal initial weights, bounds (0, 1) per asset, the chosen objective and the constraint Σw − 1 = 0 |
| Optimizer.InitialGuessFeasible | scripts/portfolio_optimization.py:133-139 | the initial guess is within every bound and satisfies the constraint |
| Optimizer.OptimizePortfolio | scripts/portfolio_optimization.py:118-172 | no asset raises; an unknown name raises naming it; otherwise succeeds exactly when the solver does, returning its `x`, or raises with its message |
| MultiFactorPortfolio.Head | scripts/portfolio_optimization.py:193 | `head(n)`: a prefix of min(n, rows) rows, or for negative n all but the last −n |
| MultiFactorPortfolio.TopStocks | scripts/portfolio_optimization.py:193 | the tickers of the first `top_n` combined rows |
| MultiFactorPortfolio.TopStocksAreBest | scripts/portfolio_optimization.py:189-193 | every selected row scores no worse than every row left out |
| MultiFactorPortfolio.TopStocksCount | scripts/portfolio_optimization.py:193 | for non-negative `top_n`, exactly min(top_n, rows) distinct tickers are selected |
| MultiFactorPortfolio.Labelled | scripts/portfolio_optimization.py:202 | `pd.Series(weights, index=top_stocks)`: keyed by the tickers, holding the weights |
| MultiFactorPortfolio.Assemble | scripts/portfolio_optimization.py:192-227 | raises exactly on missing price columns or an empty selection; otherwise reports the selected stocks, weights keyed by them, and the statistics of those weights on the daily returns |
| MultiFactorPortfolio.OptimisedWeightsKept | scripts/portfolio_optimization.py:199-213 | no `'error'` entry exactly when the optimiser returned one weight per stock, and then those weights are reported; a raised error is the one recorded |
| MultiFactorPortfolio.FallbackEqualWeights | scripts/portfolio_optimization.py:214-227 | after a fallback every weight is 1/n and they sum to one |
| MultiFactorPortfolio.UnknownObjectiveFallsBack | scripts/portfolio_optimization.py:157-158 | an unknown objective is caught: the portfolio falls back with that error recorded |
| MultiFactorPortfolio.CreateMultiFactorPortfolio | scripts/portfolio_optimization.py:175-227 | a combining error reaches the caller; otherwise the result is `Assemble` on a valid combined table |

## Left out

- Data acquisition is left out. This covers yfinance downloads, `info`,
  the financial statements and `download_price_data`. Their results are
  parameters: a function from ticker to the provider's answer, or a
  price frame.
- CSV reads and writes are left out, including the `data is None`
  fallbacks to a saved file. So are all printing and the matplotlib
  plots.
- Extracting adjusted closing prices from the raw download frame is left
  out (`scripts/value_factor_analysis.py:40-55`,
  `scripts/momentum_factor_analysis.py:40-56`). The model starts from
  (ticker, latest price) pairs and from a price panel.
- `sco.minimize` (SLSQP) is an uninterpreted parameter. Only what it is
  given and how its answer is used are modelled.
- `np.sqrt` is a parameter `sqrt: real -> real`. The properties are
  stated on the annual variance, which needs no square root.
- Floating point is not modelled: values are exact reals and NaN is a
  missing value. A division by zero is missing in the model, where numpy
  gives ±inf. Such an inf would pass a `> 0` filter, be ranked, and
  survive `dropna()`.
- Pandas' chained `combined_df[col].fillna(..., inplace=True)` is
  modelled as filling the frame's column. That is the behaviour without
  copy-on-write.
- The error strings are kept as structured reasons. This covers
  `ValueError` messages, `KeyError` labels and the `'error'` entry's
  `str(e)`.
- `optimize_portfolio`'s `constraints` argument is not a parameter. The
  code overwrites it (line 139).
- Labels are assumed unique. `PriceReturns.ValidFrame` asks for distinct
  price column labels; with duplicates, pandas would return several
  columns per label. `Combiner.ValidRankings` asks for distinct family
  names (dict keys are unique anyway) and distinct tickers within each
  family's index; with a repeated ticker, pandas would align several
  composites on one label.
- `ValueFactor.ValueInfo` and `QualityFactor.QualityInfo` give a field
  `None` both when the provider's `info` lacks the key and when it holds
  `None` there. In the source a stored `None` reaches an arithmetic
  operation (`None / 1e9` and the like) and raises `TypeError`. The value
  ranker then skips the ticker, and the quality ranker ends with an
  all-NaN row. The model reaches those outcomes only through a failed
  `info` fetch (`InfoFailed`).
- `Ranking.RankTable` specifies the ranked order as any permutation
  sorted by composite. It does not give pandas' particular tie order,
  because `sort_values` promises none.
- `Combiner.CombineFactorRankings` specifies the combined order as any
  permutation sorted by score, because the index comes from a `set`.
- `Optimizer.ObjectiveValue` states definedness only for `max_return`
  and `min_volatility`. The `sharpe` objective's meaning is stated by
  `Optimizer.SharpeOrientation` where it is defined.
