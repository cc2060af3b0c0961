/**
 * `create_multi_factor_portfolio`: combine the factor rankings, keep the
 * best `top_n` tickers, compute their daily returns, ask the optimiser
 * for weights and report the weights with their statistics. Any
 * exception raised between the optimiser call and the statistics is
 * caught, and the portfolio then falls back to equal weights and carries
 * an `'error'` entry. Errors raised before (combining, selecting the
 * price columns) and in the fallback itself (no ticker selected) reach
 * the caller.
 */
module MultiFactorPortfolio {
  import opened Common
  import opened Matrices
  import opened Combiner
  import opened PriceReturns
  import opened PortfolioStatistics
  import opened Optimizer

  /** Why the portfolio fell back to equal weights: the exception the
      `try` block caught. */
  datatype FallbackReason =
    | OptimizerRaised(error: OptimizeError)  // raised inside `optimize_portfolio`
    | WeightCountMismatch                    // `pd.Series(weights, index=top_stocks)` with lengths that differ

  /** The dict returned: `'stocks'`, `'weights'` (a Series keyed by
      ticker), `'statistics'`, `'combined_rankings'` and, after a
      fallback, `'error'`. */
  datatype Portfolio = Portfolio(
    stocks: seq<string>,
    weights: seq<(string, real)>,
    statistics: Statistics,
    combined: seq<CombinedRow>,
    error: Option<FallbackReason>)

  /** The exceptions that leave `create_multi_factor_portfolio`. */
  datatype PortfolioError =
    | CombineFailed(cause: CombineError)        // raised by `combine_factor_rankings`
    | MissingPrices(tickers: seq<string>)       // KeyError from `price_data[top_stocks]`
    | NoStocks                                  // ZeroDivisionError in the equal-weight fallback

  /** `df.head(n)`: the first `n` rows; a negative `n` leaves out the last
      `-n` rows instead. */
  function Head<T>(s: seq<T>, n: int): (h: seq<T>)
    ensures n >= 0 ==> |h| == if n <= |s| then n else |s|
    ensures n < 0 ==> |h| == if -n <= |s| then |s| + n else 0
    ensures h == s[..|h|]
  {
    if n >= 0 then (if n <= |s| then s[..n] else s)
    else (if -n <= |s| then s[..|s| + n] else [])
  }

  /** `combined_df.head(top_n).index.tolist()`. */
  function TopStocks(combined: seq<CombinedRow>, topN: int): (top: seq<string>)
    ensures top == Tickers(Head(combined, topN))
  {
    Tickers(Head(combined, topN))
  }

  /** The selected tickers are the best-scored ones: every selected row
      scores no worse than every row left out. */
  lemma TopStocksAreBest(combined: seq<CombinedRow>, topN: int, i: nat, j: nat)
    requires SortedBy(combined, ScoreKey)
    requires i < |Head(combined, topN)| <= j < |combined|
    ensures combined[i].ticker == TopStocks(combined, topN)[i]
    ensures KeyLe(combined[i].score, combined[j].score)
  {
    assert ScoreKey(combined[i]) == combined[i].score && ScoreKey(combined[j]) == combined[j].score;
  }

  /** With `0 <= top_n`, exactly `min(top_n, rows)` tickers are selected,
      and no ticker twice. */
  lemma TopStocksCount(rankings: Rankings, w: Weights, combined: seq<CombinedRow>, topN: int)
    requires IsCombined(rankings, w, combined) && topN >= 0
    ensures |TopStocks(combined, topN)| == if topN <= |combined| then topN else |combined|
    ensures Distinct(TopStocks(combined, topN))
  {
    var top := TopStocks(combined, topN);
    forall a, b | 0 <= a < b < |top| ensures top[a] != top[b] {
      assert top[a] == Tickers(combined)[a] && top[b] == Tickers(combined)[b];
    }
  }

  /** `pd.Series(values, index=tickers)`. */
  function Labelled(tickers: seq<string>, values: seq<real>): (s: seq<(string, real)>)
    requires |tickers| == |values|
    ensures Keys(s) == tickers
    ensures WeightValues(s) == values
  {
    var s := seq(|tickers|, i requires 0 <= i < |tickers| => (tickers[i], values[i]));
    assert Keys(s) == tickers;
    s
  }

  /** Everything after combining, for the combined table `combined`. */
  function Assemble(combined: seq<CombinedRow>, prices: PriceFrame, topN: int, objective: string,
                    minimize: Problem -> SolverResult, sqrt: real -> real): (r: Result<Portfolio, PortfolioError>)
    requires ValidFrame(prices)
    ensures var top := TopStocks(combined, topN);
            && (r.Failure? <==> (exists t :: t in top && t !in prices.tickers) || top == [])
            && (r.Failure? && top != [] ==> r.error.MissingPrices?)
            && (r.Success? ==>
                  && r.value.stocks == top
                  && r.value.combined == combined
                  && Keys(r.value.weights) == top
                  && r.value.statistics
                     == CalculatePortfolioStatistics(DailyReturnTable(prices, top).value, |top|, WeightValues(r.value.weights), sqrt))
  {
    var top := TopStocks(combined, topN);
    var table := DailyReturnTable(prices, top);
    if table.Failure? then Failure(MissingPrices(table.error))
    else
      var x, n := table.value, |top|;
      var optimised := OptimizePortfolio(x, n, objective, minimize, sqrt);
      if optimised.Success? && |optimised.value| == n then
        var w := optimised.value;
        Success(Portfolio(top, Labelled(top, w), CalculatePortfolioStatistics(x, n, w, sqrt), combined, None))
      else if n == 0 then Failure(NoStocks)
      else
        var reason := if optimised.Failure? then OptimizerRaised(optimised.error) else WeightCountMismatch;
        var w := EqualWeights(n);
        Success(Portfolio(top, Labelled(top, w), CalculatePortfolioStatistics(x, n, w, sqrt), combined, Some(reason)))
  }

  /** The portfolio has no `'error'` entry exactly when the optimiser
      returned one weight per selected stock, and then those weights are
      the ones reported. */
  lemma OptimisedWeightsKept(combined: seq<CombinedRow>, prices: PriceFrame, topN: int, objective: string,
                             minimize: Problem -> SolverResult, sqrt: real -> real)
    requires ValidFrame(prices)
    requires Assemble(combined, prices, topN, objective, minimize, sqrt).Success?
    ensures var top := TopStocks(combined, topN);
            var p := Assemble(combined, prices, topN, objective, minimize, sqrt).value;
            var optimised := OptimizePortfolio(DailyReturnTable(prices, top).value, |top|, objective, minimize, sqrt);
            && (p.error.None? <==> optimised.Success? && |optimised.value| == |top|)
            && (p.error.None? ==> WeightValues(p.weights) == optimised.value)
            && (p.error.Some? && optimised.Failure? ==> p.error == Some(OptimizerRaised(optimised.error)))
  {
  }

  /** After a fallback every weight is `1/n`, and the weights sum to one. */
  lemma FallbackEqualWeights(combined: seq<CombinedRow>, prices: PriceFrame, topN: int, objective: string,
                             minimize: Problem -> SolverResult, sqrt: real -> real)
    requires ValidFrame(prices)
    requires Assemble(combined, prices, topN, objective, minimize, sqrt).Success?
    requires Assemble(combined, prices, topN, objective, minimize, sqrt).value.error.Some?
    ensures var p := Assemble(combined, prices, topN, objective, minimize, sqrt).value;
            && (forall i :: 0 <= i < |p.weights| ==> p.weights[i].1 == 1.0 / |p.stocks| as real)
            && Sum(WeightValues(p.weights)) == 1.0
  {
    var p := Assemble(combined, prices, topN, objective, minimize, sqrt).value;
    EqualWeightsSumToOne(|p.stocks|);
  }

  /** An objective name the optimiser does not know does not reach the
      caller: it is caught like a solver failure and the portfolio falls
      back to equal weights. */
  lemma UnknownObjectiveFallsBack(combined: seq<CombinedRow>, prices: PriceFrame, topN: int, objective: string,
                                  minimize: Problem -> SolverResult, sqrt: real -> real)
    requires ValidFrame(prices) && ParseObjective(objective).None?
    requires TopStocks(combined, topN) != [] && forall t :: t in TopStocks(combined, topN) ==> t in prices.tickers
    ensures Assemble(combined, prices, topN, objective, minimize, sqrt).Success?
    ensures Assemble(combined, prices, topN, objective, minimize, sqrt).value.error
            == Some(OptimizerRaised(UnknownObjective(objective)))
  {
  }

  /** `create_multi_factor_portfolio(rankings, price_data, weights, top_n,
      objective)`: the combined table is the one `combine_factor_rankings`
      promises, and the rest is `Assemble` on it. */
  method CreateMultiFactorPortfolio(rankings: Rankings, prices: PriceFrame, weights: Option<Weights>, topN: int,
                                    objective: string, minimize: Problem -> SolverResult, sqrt: real -> real)
    returns (r: Result<Portfolio, PortfolioError>)
    requires ValidRankings(rankings) && ValidWeights(weights) && ValidFrame(prices)
    ensures CombineFailure(rankings, weights).Some? ==> r == Failure(CombineFailed(CombineFailure(rankings, weights).value))
    ensures CombineFailure(rankings, weights).None? ==>
              exists combined :: IsCombined(rankings, NormalizedWeights(rankings, weights), combined)
                                 && r == Assemble(combined, prices, topN, objective, minimize, sqrt)
  {
    var combined := CombineFactorRankings(rankings, weights);
    if combined.Failure? {
      return Failure(CombineFailed(combined.error));
    }
    r := Assemble(combined.value, prices, topN, objective, minimize, sqrt);
  }
}
