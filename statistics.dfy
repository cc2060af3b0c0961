/**
 * `calculate_portfolio_statistics`: the annualised expected return, the
 * annualised variance (whose square root is the volatility) and the
 * Sharpe ratio of a weight vector over a table of daily returns. The
 * table has one row per trading day and one column per selected stock;
 * after `dropna` it holds no missing value.
 *
 * Besides the source's own formulas (column means, sample covariance,
 * `wᵀ (252 · Cov) w`), the module states what they mean for the
 * portfolio as a single asset: the annual return is 252 times the mean of
 * the portfolio's daily returns, and the annual variance is 252 times the
 * sample variance of those daily returns, so it is never negative.
 */
module PortfolioStatistics {
  import opened Common
  import opened WeightedSums
  import opened Matrices

  /** The annualisation factor: trading days per year. */
  const TradingDays: real := 252.0

  /** `Series.mean()`. */
  function Mean(xs: seq<real>): real
    requires |xs| > 0
  {
    Sum(xs) / |xs| as real
  }

  /** A return table with `n` stocks whose statistics pandas can take: a
      column mean needs at least one row. */
  predicate HasMeans(x: seq<seq<real>>, n: nat) {
    Rectangular(x, n) && (n > 0 ==> |x| > 0)
  }

  /** `returns.mean()`: the mean of every column. */
  function ColumnMeans(x: seq<seq<real>>, n: nat): (ms: seq<real>)
    requires HasMeans(x, n)
    ensures |ms| == n && forall i :: 0 <= i < n ==> ms[i] == Mean(Column(x, n, i))
  {
    seq(n, i requires 0 <= i < n => Mean(Column(x, n, i)))
  }

  /** Every entry minus its column's mean. */
  function Deviations(x: seq<seq<real>>, n: nat): (d: seq<seq<real>>)
    requires HasMeans(x, n)
    ensures |d| == |x| && Rectangular(d, n)
    ensures forall t :: 0 <= t < |x| ==> d[t] == Minus(x[t], ColumnMeans(x, n))
  {
    var ms := ColumnMeans(x, n);
    seq(|x|, t requires 0 <= t < |x| => Minus(x[t], ms))
  }

  /** The sums of products of deviations, column against column. */
  function CrossProducts(d: seq<seq<real>>, n: nat): (g: seq<seq<real>>)
    requires Rectangular(d, n)
    ensures |g| == n && Rectangular(g, n)
    ensures forall i, j :: 0 <= i < n && 0 <= j < n ==> g[i][j] == Dot(Column(d, n, i), Column(d, n, j))
  {
    seq(n, i requires 0 <= i < n => seq(n, j requires 0 <= j < n => Dot(Column(d, n, i), Column(d, n, j))))
  }

  /** A table pandas can take the sample covariance of: `ddof = 1` needs two
      rows. */
  predicate HasCovariance(x: seq<seq<real>>, n: nat) {
    Rectangular(x, n) && (n > 0 ==> |x| >= 2)
  }

  /** `returns.cov()`: the sample covariance, the cross products of the
      deviations divided by `rows - 1`. */
  function Covariance(x: seq<seq<real>>, n: nat): (c: seq<seq<real>>)
    requires HasCovariance(x, n)
    ensures |c| == n && Rectangular(c, n)
    ensures forall i :: 0 <= i < n ==> c[i] == ScaledBy(1.0 / (|x| - 1) as real, CrossProducts(Deviations(x, n), n)[i])
  {
    var g := CrossProducts(Deviations(x, n), n);
    seq(n, i requires 0 <= i < n => ScaledBy(1.0 / (|x| - 1) as real, g[i]))
  }

  /** `returns.cov() * 252`: the covariance annualised entry by entry. */
  function AnnualCovariance(x: seq<seq<real>>, n: nat): (c: seq<seq<real>>)
    requires HasCovariance(x, n)
    ensures |c| == n && Rectangular(c, n)
    ensures forall i :: 0 <= i < n ==> c[i] == ScaledBy(TradingDays, Covariance(x, n)[i])
  {
    var cov := Covariance(x, n);
    seq(n, i requires 0 <= i < n => ScaledBy(TradingDays, cov[i]))
  }

  /** `np.sum(returns.mean() * weights) * 252`; NaN (`None`) when a
      column has no rows to average. */
  function AnnualReturn(x: seq<seq<real>>, n: nat, w: seq<real>): (r: Option<real>)
    requires Rectangular(x, n) && |w| == n
    ensures r.Some? <==> HasMeans(x, n)
  {
    if n > 0 && |x| == 0 then None else Some(Dot(ColumnMeans(x, n), w) * TradingDays)
  }

  /** `np.dot(weights.T, np.dot(returns.cov() * 252, weights))`, the
      square of the volatility; NaN (`None`) when a covariance needs rows
      the table does not have. */
  function AnnualVariance(x: seq<seq<real>>, n: nat, w: seq<real>): (r: Option<real>)
    requires Rectangular(x, n) && |w| == n
    ensures r.Some? <==> HasCovariance(x, n)
  {
    if n > 0 && |x| < 2 then None else Some(Dot(w, MatVec(AnnualCovariance(x, n), n, w)))
  }

  /** The statistics dict: `'return'`, `'volatility'`, `'sharpe_ratio'`. */
  datatype Statistics = Statistics(annualReturn: Option<real>, volatility: Option<real>, sharpeRatio: Option<real>)

  /** `calculate_portfolio_statistics(returns, weights)`. `sqrt` is
      `np.sqrt`; a NaN or infinite ratio is `None`. */
  function CalculatePortfolioStatistics(x: seq<seq<real>>, n: nat, w: seq<real>, sqrt: real -> real): (s: Statistics)
    requires Rectangular(x, n) && |w| == n
    ensures s.annualReturn == AnnualReturn(x, n, w)
    ensures s.volatility.Some? <==> HasCovariance(x, n)
    ensures s.volatility.Some? ==> s.volatility.value == sqrt(AnnualVariance(x, n, w).value)
    ensures s.sharpeRatio.Some? <==> HasMeans(x, n) && s.volatility.Some? && s.volatility.value != 0.0
    ensures s.sharpeRatio.Some? ==> s.sharpeRatio.value * s.volatility.value == s.annualReturn.value
  {
    var ret := AnnualReturn(x, n, w);
    var variance := AnnualVariance(x, n, w);
    var volatility := if variance.Some? then Some(sqrt(variance.value)) else None;
    Statistics(ret, volatility, Ratio(ret, volatility))
  }

  // ---------------------------------------------------------------------
  // The portfolio as one asset
  // ---------------------------------------------------------------------

  /** The portfolio's return on each day: `Σᵢ x[t][i] · w[i]`. */
  function DailyReturns(x: seq<seq<real>>, n: nat, w: seq<real>): (p: seq<real>)
    requires Rectangular(x, n) && |w| == n
    ensures |p| == |x|
  {
    MatVec(x, n, w)
  }

  /** Every value minus the mean. */
  function Centered(p: seq<real>): (c: seq<real>)
    requires |p| > 0
    ensures |c| == |p| && forall t :: 0 <= t < |p| ==> c[t] == p[t] - Mean(p)
  {
    seq(|p|, t requires 0 <= t < |p| => p[t] - Mean(p))
  }

  /** The sample variance (divisor `length - 1`). */
  function SampleVariance(p: seq<real>): real
    requires |p| >= 2
  {
    Dot(Centered(p), Centered(p)) / (|p| - 1) as real
  }

  lemma QuotientIsScale(s: real, d: real)
    requires d != 0.0
    ensures s / d == (1.0 / d) * s
  {
  }

  lemma ScaleEqual(c: real, a: real, b: real)
    requires a == b
    ensures c * a == c * b
  {
  }

  lemma ProductNonnegative(a: real, b: real)
    requires a >= 0.0 && b >= 0.0
    ensures a * b >= 0.0
  {
  }

  /** The column means are the column sums scaled by `1 / rows`. */
  lemma ColumnMeansScaled(x: seq<seq<real>>, n: nat)
    requires Rectangular(x, n) && |x| > 0
    ensures ColumnMeans(x, n) == ScaledBy(1.0 / |x| as real, ColumnDots(x, n, Ones(|x|)))
  {
    var ms, sums := ColumnMeans(x, n), ColumnDots(x, n, Ones(|x|));
    var scaled := ScaledBy(1.0 / |x| as real, sums);
    forall i | 0 <= i < n ensures ms[i] == scaled[i] {
      var c := Column(x, n, i);
      DotOnes(c);
      QuotientIsScale(Sum(c), |x| as real);
    }
    assert ms == scaled;
  }

  /** The weighted sum of the column means is the mean daily return of the
      portfolio. */
  lemma MeanOfDaily(x: seq<seq<real>>, n: nat, w: seq<real>)
    requires Rectangular(x, n) && |w| == n && |x| > 0
    ensures Dot(ColumnMeans(x, n), w) == Mean(DailyReturns(x, n, w))
  {
    var ones, p := Ones(|x|), DailyReturns(x, n, w);
    var sums := ColumnDots(x, n, ones);
    var c := 1.0 / |x| as real;
    ColumnMeansScaled(x, n);
    DotScaled(c, sums, w);
    DotCommutes(sums, w);
    BilinearSwap(x, n, w, ones);
    DotCommutes(ones, p);
    DotOnes(p);
    ScaleEqual(c, Dot(sums, w), Sum(p));
    QuotientIsScale(Sum(p), |x| as real);
  }

  /** The annual return is 252 times the mean daily return of the
      portfolio. */
  lemma AnnualReturnIsMeanDaily(x: seq<seq<real>>, n: nat, w: seq<real>)
    requires Rectangular(x, n) && |w| == n && |x| > 0
    ensures AnnualReturn(x, n, w) == Some(Mean(DailyReturns(x, n, w)) * TradingDays)
  {
    MeanOfDaily(x, n, w);
  }

  /** Row `t` of the deviations, weighted, is the portfolio's daily return
      minus its mean. */
  lemma DeviationsWeighted(x: seq<seq<real>>, n: nat, w: seq<real>)
    requires Rectangular(x, n) && |w| == n && |x| > 0
    ensures MatVec(Deviations(x, n), n, w) == Centered(DailyReturns(x, n, w))
  {
    var d, ms, p := Deviations(x, n), ColumnMeans(x, n), DailyReturns(x, n, w);
    MeanOfDaily(x, n, w);
    forall t | 0 <= t < |x| ensures MatVec(d, n, w)[t] == Centered(p)[t] {
      DotMinus(x[t], ms, w);
    }
  }

  /** Row `i` of the cross products, applied to `w`, is column `i` of the
      deviations against the weighted deviations. */
  lemma CrossProductsRow(d: seq<seq<real>>, n: nat, w: seq<real>, i: nat)
    requires Rectangular(d, n) && |w| == n && i < n
    ensures Dot(CrossProducts(d, n)[i], w) == ColumnDots(d, n, MatVec(d, n, w))[i]
  {
    var g, ci := CrossProducts(d, n), Column(d, n, i);
    var cd := ColumnDots(d, n, ci);
    forall j | 0 <= j < n ensures g[i][j] == cd[j] {
      DotCommutes(ci, Column(d, n, j));
    }
    assert g[i] == cd;
    DotCommutes(cd, w);
    BilinearSwap(d, n, w, ci);
  }

  /** `wᵀ G w` with `G` the cross products of `d` is the sum of squares of
      `d w`. */
  lemma CrossProductsForm(d: seq<seq<real>>, n: nat, w: seq<real>)
    requires Rectangular(d, n) && |w| == n
    ensures Dot(w, MatVec(CrossProducts(d, n), n, w)) == Dot(MatVec(d, n, w), MatVec(d, n, w))
  {
    var g, p := CrossProducts(d, n), MatVec(d, n, w);
    var gw, cdp := MatVec(g, n, w), ColumnDots(d, n, p);
    forall i | 0 <= i < n ensures gw[i] == cdp[i] {
      CrossProductsRow(d, n, w, i);
    }
    assert gw == cdp;
    BilinearSwap(d, n, w, p);
  }

  /** A table whose rows are those of `m` scaled by `c` maps `w` to `m w`
      scaled by `c`. */
  lemma MatVecScaledRows(m: seq<seq<real>>, scaled: seq<seq<real>>, n: nat, w: seq<real>, c: real)
    requires Rectangular(m, n) && |w| == n && |scaled| == |m|
    requires forall t :: 0 <= t < |m| ==> scaled[t] == ScaledBy(c, m[t])
    ensures Rectangular(scaled, n)
    ensures MatVec(scaled, n, w) == ScaledBy(c, MatVec(m, n, w))
  {
    var lhs, mw := MatVec(scaled, n, w), MatVec(m, n, w);
    var rhs := ScaledBy(c, mw);
    forall t | 0 <= t < |m| ensures lhs[t] == rhs[t] {
      DotScaled(c, m[t], w);
      ScaleEqual(c, Dot(m[t], w), mw[t]);
    }
    assert lhs == rhs;
  }

  /** The annualised covariance applied to `w` is the cross products
      applied to `w`, divided by `rows - 1` and multiplied by 252. */
  lemma AnnualCovarianceScaled(x: seq<seq<real>>, n: nat, w: seq<real>)
    requires Rectangular(x, n) && |w| == n && |x| >= 2
    ensures MatVec(AnnualCovariance(x, n), n, w)
            == ScaledBy(TradingDays, ScaledBy(1.0 / (|x| - 1) as real, MatVec(CrossProducts(Deviations(x, n), n), n, w)))
  {
    var g := CrossProducts(Deviations(x, n), n);
    MatVecScaledRows(g, Covariance(x, n), n, w, 1.0 / (|x| - 1) as real);
    MatVecScaledRows(Covariance(x, n), AnnualCovariance(x, n), n, w, TradingDays);
  }

  lemma QuotientNonnegative(a: real, b: real)
    requires a >= 0.0 && b > 0.0
    ensures a / b >= 0.0
  {
  }

  /** `wᵀ G w` is the sum of squares of the portfolio's centred daily
      returns. */
  lemma CrossProductsCentered(x: seq<seq<real>>, n: nat, w: seq<real>)
    requires Rectangular(x, n) && |w| == n && |x| > 0
    ensures Dot(w, MatVec(CrossProducts(Deviations(x, n), n), n, w))
            == Dot(Centered(DailyReturns(x, n, w)), Centered(DailyReturns(x, n, w)))
  {
    CrossProductsForm(Deviations(x, n), n, w);
    DeviationsWeighted(x, n, w);
  }

  /** The chain of equalities behind the variance identity, on plain
      vectors: `wᵀ (c (q G)) w` with `wᵀ G w = dᵀ d` is `c` times `dᵀ d / t`
      when `q = 1 / t`. */
  lemma VarianceChain(w: seq<real>, a: seq<real>, gw: seq<real>, d: seq<real>, c: real, t: real)
    requires |w| == |gw| && t != 0.0
    requires a == ScaledBy(c, ScaledBy(1.0 / t, gw)) && Dot(w, gw) == Dot(d, d)
    ensures Dot(w, a) == Dot(d, d) / t * c
  {
    var q := 1.0 / t;
    DotScaledRight(c, w, ScaledBy(q, gw));
    DotScaledRight(q, w, gw);
    ScaleEqual(c, Dot(w, ScaledBy(q, gw)), q * Dot(d, d));
  }

  /** The annual variance is 252 times the sample variance of the
      portfolio's daily returns. */
  lemma AnnualVarianceIsDailyVariance(x: seq<seq<real>>, n: nat, w: seq<real>)
    requires Rectangular(x, n) && |w| == n && |x| >= 2
    ensures AnnualVariance(x, n, w) == Some(SampleVariance(DailyReturns(x, n, w)) * TradingDays)
  {
    var p := DailyReturns(x, n, w);
    var a := MatVec(AnnualCovariance(x, n), n, w);
    var gw := MatVec(CrossProducts(Deviations(x, n), n), n, w);
    assert AnnualVariance(x, n, w) == Some(Dot(w, a));
    AnnualCovarianceScaled(x, n, w);
    CrossProductsCentered(x, n, w);
    VarianceChain(w, a, gw, Centered(p), TradingDays, (|x| - 1) as real);
    SampleVarianceOfLength(p, |x|);
  }

  lemma SampleVarianceOfLength(p: seq<real>, m: nat)
    requires |p| == m >= 2
    ensures SampleVariance(p) == Dot(Centered(p), Centered(p)) / (m - 1) as real
  {
  }

  /** A sample variance is never negative. */
  lemma SampleVarianceNonnegative(p: seq<real>)
    requires |p| >= 2
    ensures SampleVariance(p) >= 0.0
  {
    DotSelfNonnegative(Centered(p));
    QuotientNonnegative(Dot(Centered(p), Centered(p)), (|p| - 1) as real);
  }

  /** The annual variance, where defined, is never negative, so its square
      root, the volatility, is a real number. */
  lemma AnnualVarianceNonnegative(x: seq<seq<real>>, n: nat, w: seq<real>)
    requires Rectangular(x, n) && |w| == n
    ensures AnnualVariance(x, n, w).Some? ==> AnnualVariance(x, n, w).value >= 0.0
  {
    if |x| >= 2 {
      var v := SampleVariance(DailyReturns(x, n, w));
      AnnualVarianceIsDailyVariance(x, n, w);
      SampleVarianceNonnegative(DailyReturns(x, n, w));
      ProductNonnegative(v, TradingDays);
    } else if n == 0 {
      assert w == [];
    }
  }
}
