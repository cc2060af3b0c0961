/**
 * The momentum factor: 1-, 3-, 6- and 12-month returns from a panel of
 * adjusted closing prices, the current price, and (for tickers with more
 * than 200 prices) the 50- and 200-day moving averages and their ratios;
 * and the momentum ranking (every metric descending, without a positivity
 * filter, the moving-average ranks only when their column exists).
 */
module MomentumFactor {
  import opened Common
  import opened Ranking

  // Column positions of the momentum metric table.
  const Return1M := 0
  const Return3M := 1
  const Return6M := 2
  const Return12M := 3
  const CurrentPrice := 4
  const MA50 := 5
  const MA200 := 6
  const PriceToMA50 := 7
  const PriceToMA200 := 8
  const MA50ToMA200 := 9
  const Width := 10

  // Look-back periods in trading days.
  const Days1M := 21
  const Days3M := 63
  const Days6M := 126
  const Days12M := 252

  /** A ticker needs more than this many prices for moving averages. */
  const MinPricesForMA := 200

  /** Adjusted closing prices: one column per ticker, all of the same
      length (one entry per date, oldest first). */
  datatype PricePanel = PricePanel(dates: nat, tickers: seq<string>, prices: seq<seq<Option<real>>>)

  predicate Rectangular(p: PricePanel) {
    |p.prices| == |p.tickers| && forall i :: 0 <= i < |p.prices| ==> |p.prices[i]| == p.dates
  }

  /** `Series.dropna()`: the present prices, in order. */
  function Present(s: seq<Option<real>>): (p: seq<real>)
    ensures |p| <= |s|
    decreases |s|
  {
    if s == [] then []
    else if s[|s| - 1].Some? then Present(s[..|s| - 1]) + [s[|s| - 1].value]
    else Present(s[..|s| - 1])
  }

  /** Without gaps, dropping missing prices changes nothing. */
  lemma {:induction false} PresentOfComplete(s: seq<Option<real>>)
    requires forall i :: 0 <= i < |s| ==> s[i].Some?
    ensures |Present(s)| == |s|
    ensures forall i :: 0 <= i < |s| ==> Present(s)[i] == s[i].value
    decreases |s|
  {
    if s != [] {
      PresentOfComplete(s[..|s| - 1]);
    }
  }

  /** The last present price: the value at the end of the forward-filled
      series, missing when no price is present. */
  function LastPresent(s: seq<Option<real>>): (r: Option<real>)
    ensures r.None? <==> Present(s) == []
  {
    var p := Present(s);
    if p == [] then None else Some(p[|p| - 1])
  }

  /** The ticker has at least one price. */
  predicate HasPrices(s: seq<Option<real>>) {
    exists i :: 0 <= i < |s| && s[i].Some?
  }

  lemma {:induction false} HasPricesIff(s: seq<Option<real>>)
    ensures HasPrices(s) <==> Present(s) != []
    decreases |s|
  {
    if s != [] {
      var p := s[..|s| - 1];
      HasPricesIff(p);
      assert forall i :: 0 <= i < |p| ==> p[i] == s[i];
      if HasPrices(p) {
        var i :| 0 <= i < |p| && p[i].Some?;
        assert s[i].Some?;
      }
    }
  }

  /** The last row of `prices.pct_change(periods=k)` in percent: the
      forward-filled last price over the forward-filled price `k` rows
      earlier, minus one, times 100; missing with at most `k` rows. */
  function PeriodReturn(s: seq<Option<real>>, k: nat): (r: Option<real>)
    ensures |s| <= k ==> r.None?
  {
    if |s| > k then
      var ratio := Ratio(LastPresent(s), LastPresent(s[..|s| - k]));
      if ratio.Some? then Some((ratio.value - 1.0) * 100.0) else None
    else None
  }

  /** On a series without gaps the k-period return is
      100 × (last price / price k rows earlier − 1). */
  lemma PeriodReturnOfComplete(s: seq<Option<real>>, k: nat)
    requires forall i :: 0 <= i < |s| ==> s[i].Some?
    requires |s| > k && s[|s| - 1 - k].value != 0.0
    ensures PeriodReturn(s, k) == Some((s[|s| - 1].value / s[|s| - 1 - k].value - 1.0) * 100.0)
  {
    PresentOfComplete(s);
    PresentOfComplete(s[..|s| - k]);
  }

  /** `rolling(window=w).mean().iloc[-1]`: the mean of the last `w`
      prices. */
  function MovingAverage(p: seq<real>, w: nat): (m: real)
    requires 0 < w <= |p|
  {
    Sum(p[|p| - w..]) / w as real
  }

  /** A moving average lies between the lowest and the highest price of its
      window. */
  lemma MovingAverageWithin(p: seq<real>, w: nat, lo: real, hi: real)
    requires 0 < w <= |p|
    requires forall i :: |p| - w <= i < |p| ==> lo <= p[i] <= hi
    ensures lo <= MovingAverage(p, w) <= hi
  {
    var win := p[|p| - w..];
    SumBounds(win, lo, hi);
  }

  lemma {:induction false} SumBounds(s: seq<real>, lo: real, hi: real)
    requires forall i :: 0 <= i < |s| ==> lo <= s[i] <= hi
    ensures lo * |s| as real <= Sum(s) <= hi * |s| as real
    decreases |s|
  {
    if s != [] {
      SumBounds(s[..|s| - 1], lo, hi);
    }
  }

  /** The momentum metrics of a ticker with at least one price. */
  function MomentumMetrics(s: seq<Option<real>>): (m: seq<Option<real>>)
    requires HasPrices(s)
    ensures |m| == Width
    ensures m[CurrentPrice] == LastPresent(s)
    ensures m[MA50].Some? <==> |Present(s)| > MinPricesForMA
    ensures forall c :: MA50 <= c < Width && |Present(s)| <= MinPricesForMA ==> m[c].None?
  {
    HasPricesIff(s);
    var p := Present(s);
    var price := p[|p| - 1];
    var base := [PeriodReturn(s, Days1M), PeriodReturn(s, Days3M), PeriodReturn(s, Days6M),
                 PeriodReturn(s, Days12M), Some(price)];
    if |p| > MinPricesForMA then
      var ma50 := MovingAverage(p, 50);
      var ma200 := MovingAverage(p, 200);
      base + [Some(ma50), Some(ma200), Ratio(Some(price), Some(ma50)),
              Ratio(Some(price), Some(ma200)), Ratio(Some(ma50), Some(ma200))]
    else
      base + [None, None, None, None, None]
  }

  /** The golden-cross indicator of positive prices exceeds one exactly
      when the 50-day average is above the 200-day average. */
  lemma GoldenCross(s: seq<Option<real>>)
    requires HasPrices(s) && |Present(s)| > MinPricesForMA
    requires forall i :: 0 <= i < |Present(s)| ==> Present(s)[i] > 0.0
    ensures MomentumMetrics(s)[MA50ToMA200].Some?
    ensures MomentumMetrics(s)[MA50ToMA200].value > 1.0
            <==> MomentumMetrics(s)[MA50].value > MomentumMetrics(s)[MA200].value
  {
    var p := Present(s);
    MovingAveragePositive(p, 200);
    RatioAboveOne(MovingAverage(p, 50), MovingAverage(p, 200));
  }

  /** For a positive denominator, a ratio exceeds one exactly when the
      numerator exceeds the denominator. */
  lemma RatioAboveOne(a: real, b: real)
    requires b > 0.0
    ensures Ratio(Some(a), Some(b)).Some?
    ensures Ratio(Some(a), Some(b)).value > 1.0 <==> a > b
  {
    var r := Ratio(Some(a), Some(b)).value;
    assert r * b == a;
    if r > 1.0 {
      assert r * b > 1.0 * b;
    } else {
      assert r * b <= 1.0 * b;
    }
  }

  lemma MovingAveragePositive(p: seq<real>, w: nat)
    requires 0 < w <= |p|
    requires forall i :: |p| - w <= i < |p| ==> p[i] > 0.0
    ensures MovingAverage(p, w) > 0.0
  {
    var win := p[|p| - w..];
    SumPositive(win);
  }

  lemma {:induction false} SumPositive(s: seq<real>)
    requires s != []
    requires forall i :: 0 <= i < |s| ==> s[i] > 0.0
    ensures Sum(s) > 0.0
    decreases |s|
  {
    if |s| > 1 {
      SumPositive(s[..|s| - 1]);
    }
  }

  // ---------------------------------------------------------------------
  // The momentum metric table
  // ---------------------------------------------------------------------

  /** Why `calculate_momentum_factors` raises: the panel has no dates
      (`iloc[-1]` of the returns), or a ticker has no price at all
      (`iloc[-1]` of its prices). */
  datatype MomentumError = NoPriceRows | NoPrices(ticker: string)

  /** A metric row whose moving-average cells are all missing when its
      50-day average is. */
  predicate MomentumShape(m: seq<Option<real>>) {
    |m| == Width && (m[MA50].None? ==> forall c :: MA50 <= c < Width ==> m[c].None?)
  }

  /** The first ticker without any price, where the loop raises. */
  function FirstWithoutPrices(prices: seq<seq<Option<real>>>): (r: Option<nat>)
    ensures r.None? <==> forall i :: 0 <= i < |prices| ==> HasPrices(prices[i])
    ensures r.Some? ==> r.value < |prices| && !HasPrices(prices[r.value])
                        && forall i :: 0 <= i < r.value ==> HasPrices(prices[i])
  {
    if prices == [] then None
    else if !HasPrices(prices[0]) then Some(0)
    else
      var r := FirstWithoutPrices(prices[1..]);
      assert forall i :: 1 <= i < |prices| ==> prices[i] == prices[1..][i - 1];
      if r.Some? then Some(r.value + 1) else None
  }

  lemma FirstWithoutPricesIs(prices: seq<seq<Option<real>>>, k: nat)
    requires k < |prices| && !HasPrices(prices[k])
    requires forall i :: 0 <= i < k ==> HasPrices(prices[i])
    ensures FirstWithoutPrices(prices) == Some(k)
  {
    var r := FirstWithoutPrices(prices);
    assert r.Some?;
    assert !(r.value < k);
    assert !(r.value > k);
  }

  /** The dict of momentum metrics after processing the tickers in order.
      It is only used when every ticker has prices (the loop raises on the
      first that has none); a ticker without prices adds no row here. */
  function MomentumRows(tickers: seq<string>, prices: seq<seq<Option<real>>>): (rows: seq<Row>)
    requires |tickers| == |prices|
    ensures forall i :: 0 <= i < |rows| ==> MomentumShape(rows[i].metrics)
    decreases |tickers|
  {
    if tickers == [] then []
    else
      var n := |tickers| - 1;
      var prev := MomentumRows(tickers[..n], prices[..n]);
      if HasPrices(prices[n]) then Put(prev, Row(tickers[n], MomentumMetrics(prices[n]))) else prev
  }

  const MAColumns: set<nat> := {MA50, MA200, PriceToMA50, PriceToMA200, MA50ToMA200}

  /** Some row carries moving averages. */
  predicate AnyMA(rows: seq<Row>)
    requires forall i :: 0 <= i < |rows| ==> |rows[i].metrics| == Width
  {
    exists i :: 0 <= i < |rows| && rows[i].metrics[MA50].Some?
  }

  /** `pd.DataFrame.from_dict(metrics, orient='index')`: the columns are
      the keys some row has, so the moving-average columns exist only when
      some ticker has moving averages. */
  function MomentumTable(rows: seq<Row>): (t: Table)
    requires forall i :: 0 <= i < |rows| ==> MomentumShape(rows[i].metrics)
    ensures WellFormed(t) && t.width == Width && t.rows == rows
    ensures rows != [] ==> forall c :: 0 <= c < MA50 ==> c in t.columns
    ensures forall c :: c in MAColumns ==> (c in t.columns <==> AnyMA(rows))
  {
    forall i | 0 <= i < |rows| ensures |rows[i].metrics| == Width {
      assert MomentumShape(rows[i].metrics);
    }
    var cols := if rows == [] then {} else AllColumns(MA50) + (if AnyMA(rows) then MAColumns else {});
    assert forall i, c :: 0 <= i < |rows| && 0 <= c < Width && c !in cols ==> rows[i].metrics[c].None? by {
      forall i, c | 0 <= i < |rows| && 0 <= c < Width && c !in cols
        ensures rows[i].metrics[c].None?
      {
        assert MomentumShape(rows[i].metrics);
        assert c >= MA50 && !AnyMA(rows);
        assert rows[i].metrics[MA50].None?;
      }
    }
    Table(Width, cols, rows)
  }

  /** What `calculate_momentum_factors` returns for a panel. */
  function MomentumFactors(panel: PricePanel): (r: Result<Table, MomentumError>)
    requires Rectangular(panel)
    ensures r.Failure? <==> panel.dates == 0 || exists i :: 0 <= i < |panel.prices| && !HasPrices(panel.prices[i])
  {
    if panel.dates == 0 then Failure(NoPriceRows)
    else match FirstWithoutPrices(panel.prices)
      case Some(i) => Failure(NoPrices(panel.tickers[i]))
      case None => Success(MomentumTable(MomentumRows(panel.tickers, panel.prices)))
  }

  method CalculateMomentumFactors(panel: PricePanel) returns (r: Result<Table, MomentumError>)
    requires Rectangular(panel)
    ensures r == MomentumFactors(panel)
  {
    if panel.dates == 0 {
      return Failure(NoPriceRows);
    }
    var rows: seq<Row> := [];
    for k := 0 to |panel.tickers|
      invariant forall i :: 0 <= i < k ==> HasPrices(panel.prices[i])
      invariant rows == MomentumRows(panel.tickers[..k], panel.prices[..k])
    {
      var s := panel.prices[k];
      if !HasPrices(s) {
        FirstWithoutPricesIs(panel.prices, k);
        return Failure(NoPrices(panel.tickers[k]));
      }
      assert forall i :: 0 <= i < k + 1 ==> HasPrices(panel.prices[i]);
      MomentumRowsStep(panel.tickers, panel.prices, k);
      var metrics := MomentumMetrics(s);
      rows := Put(rows, Row(panel.tickers[k], metrics));
    }
    assert panel.tickers[..|panel.tickers|] == panel.tickers;
    assert panel.prices[..|panel.prices|] == panel.prices;
    r := Success(MomentumTable(rows));
  }

  /** One more ticker with prices appends (or replaces) its row. */
  lemma MomentumRowsStep(tickers: seq<string>, prices: seq<seq<Option<real>>>, k: nat)
    requires |tickers| == |prices| && k < |tickers| && HasPrices(prices[k])
    ensures MomentumRows(tickers[..k + 1], prices[..k + 1])
            == Put(MomentumRows(tickers[..k], prices[..k]), Row(tickers[k], MomentumMetrics(prices[k])))
  {
    assert tickers[..k + 1][..k] == tickers[..k];
    assert prices[..k + 1][..k] == prices[..k];
  }

  /** With distinct tickers, every ticker gets the row of its own
      prices. */
  lemma MomentumRowsComplete(tickers: seq<string>, prices: seq<seq<Option<real>>>)
    requires |tickers| == |prices| && Distinct(tickers)
    requires forall i :: 0 <= i < |prices| ==> HasPrices(prices[i])
    ensures forall i :: 0 <= i < |tickers| ==>
              Row(tickers[i], MomentumMetrics(prices[i])) in MomentumRows(tickers, prices)
  {
    forall i | 0 <= i < |tickers|
      ensures Row(tickers[i], MomentumMetrics(prices[i])) in MomentumRows(tickers, prices)
    {
      MomentumRowOf(tickers, prices, i);
    }
  }

  /** The row a ticker's prices give survives the rows added after it. */
  lemma {:induction false} MomentumRowOf(tickers: seq<string>, prices: seq<seq<Option<real>>>, i: nat)
    requires |tickers| == |prices| && Distinct(tickers) && i < |tickers|
    requires forall k :: 0 <= k < |prices| ==> HasPrices(prices[k])
    ensures Row(tickers[i], MomentumMetrics(prices[i])) in MomentumRows(tickers, prices)
    decreases |tickers|
  {
    var n := |tickers| - 1;
    if i < n {
      var tp, pp := tickers[..n], prices[..n];
      PrefixPanel(tickers, prices, n);
      assert tp[i] == tickers[i] && pp[i] == prices[i];
      MomentumRowOf(tp, pp, i);
      MomentumRowKept(tickers, prices, i);
    } else {
      MomentumRowsLast(tickers, prices);
    }
  }

  /** The first `n` tickers of a panel with distinct, priced tickers. */
  lemma PrefixPanel(tickers: seq<string>, prices: seq<seq<Option<real>>>, n: nat)
    requires |tickers| == |prices| && Distinct(tickers) && n <= |tickers|
    requires forall k :: 0 <= k < |prices| ==> HasPrices(prices[k])
    ensures Distinct(tickers[..n])
    ensures forall k :: 0 <= k < n ==> HasPrices(prices[..n][k])
  {
    assert forall k :: 0 <= k < n ==> prices[..n][k] == prices[k];
  }

  /** The last ticker's row is set last. */
  lemma MomentumRowsLast(tickers: seq<string>, prices: seq<seq<Option<real>>>)
    requires |tickers| == |prices| && tickers != []
    requires HasPrices(prices[|prices| - 1])
    ensures Row(tickers[|tickers| - 1], MomentumMetrics(prices[|prices| - 1])) in MomentumRows(tickers, prices)
  {
  }

  /** A row of an earlier ticker stays when a later, different ticker is
      set. */
  lemma MomentumRowKept(tickers: seq<string>, prices: seq<seq<Option<real>>>, i: nat)
    requires |tickers| == |prices| && i < |tickers| - 1
    requires HasPrices(prices[i]) && HasPrices(prices[|prices| - 1])
    requires Row(tickers[i], MomentumMetrics(prices[i])) in MomentumRows(tickers[..|tickers| - 1], prices[..|tickers| - 1])
    requires tickers[i] != tickers[|tickers| - 1]
    ensures Row(tickers[i], MomentumMetrics(prices[i])) in MomentumRows(tickers, prices)
  {
    var n := |tickers| - 1;
    var added := Row(tickers[n], MomentumMetrics(prices[n]));
    assert MomentumRows(tickers, prices) == Put(MomentumRows(tickers[..n], prices[..n]), added);
    PutKeeps(MomentumRows(tickers[..n], prices[..n]), added, Row(tickers[i], MomentumMetrics(prices[i])));
  }

  /** Every row is the row of some ticker's own prices. */
  lemma {:induction false} MomentumRowsSound(tickers: seq<string>, prices: seq<seq<Option<real>>>)
    requires |tickers| == |prices|
    requires forall i :: 0 <= i < |prices| ==> HasPrices(prices[i])
    ensures forall row :: row in MomentumRows(tickers, prices) ==>
              exists i :: 0 <= i < |tickers| && row == Row(tickers[i], MomentumMetrics(prices[i]))
    decreases |tickers|
  {
    if tickers != [] {
      var n := |tickers| - 1;
      var tp, pp := tickers[..n], prices[..n];
      assert forall i :: 0 <= i < n ==> tp[i] == tickers[i] && pp[i] == prices[i];
      MomentumRowsSound(tp, pp);
      var prev := MomentumRows(tp, pp);
      var added := Row(tickers[n], MomentumMetrics(prices[n]));
      forall row | row in Put(prev, added)
        ensures exists i :: 0 <= i < |tickers| && row == Row(tickers[i], MomentumMetrics(prices[i]))
      {
        if row != added {
          var i :| 0 <= i < |tp| && row == Row(tp[i], MomentumMetrics(pp[i]));
          assert row == Row(tickers[i], MomentumMetrics(prices[i]));
        }
      }
    }
  }

  /** With distinct tickers, the moving-average columns exist exactly when
      some ticker has more than 200 prices. */
  lemma MAColumnsExist(panel: PricePanel)
    requires Rectangular(panel) && Distinct(panel.tickers)
    requires MomentumFactors(panel).Success?
    ensures forall c :: c in MAColumns ==>
              (c in MomentumFactors(panel).value.columns
               <==> exists i :: 0 <= i < |panel.prices| && |Present(panel.prices[i])| > MinPricesForMA)
  {
    var rows := MomentumRows(panel.tickers, panel.prices);
    MomentumRowsComplete(panel.tickers, panel.prices);
    MomentumRowsSound(panel.tickers, panel.prices);
    if exists i :: 0 <= i < |panel.prices| && |Present(panel.prices[i])| > MinPricesForMA {
      var i :| 0 <= i < |panel.prices| && |Present(panel.prices[i])| > MinPricesForMA;
      var row := Row(panel.tickers[i], MomentumMetrics(panel.prices[i]));
      var k :| 0 <= k < |rows| && rows[k] == row;
      assert AnyMA(rows);
    }
    if AnyMA(rows) {
      var k :| 0 <= k < |rows| && rows[k].metrics[MA50].Some?;
      assert rows[k] in rows;
    }
  }

  // ---------------------------------------------------------------------
  // The momentum ranking
  // ---------------------------------------------------------------------

  /** The return ranks, read unconditionally. */
  const ReturnSpecs: seq<RankSpec> := [
    RankSpec(Return1M, Descending, AnyPresent, false),
    RankSpec(Return3M, Descending, AnyPresent, false),
    RankSpec(Return6M, Descending, AnyPresent, false),
    RankSpec(Return12M, Descending, AnyPresent, false)
  ]

  /** The moving-average ranks, each only when its column exists. */
  const MASpecs: seq<RankSpec> := [
    RankSpec(PriceToMA50, Descending, AnyPresent, true),
    RankSpec(PriceToMA200, Descending, AnyPresent, true),
    RankSpec(MA50ToMA200, Descending, AnyPresent, true)
  ]

  const MomentumSpecs: seq<RankSpec> := ReturnSpecs + MASpecs

  /** Ranks a copy of the momentum table: the four returns always, each
      moving-average indicator when its column exists. Fails with the
      `KeyError` of the first absent return column. */
  method RankMomentumStocks(momentumDf: Table) returns (r: Result<seq<RankedRow>, RankError>)
    requires WellFormed(momentumDf) && momentumDf.width == Width
    ensures r.Failure? <==> exists j :: 0 <= j < 4 && MomentumSpecs[j].column !in momentumDf.columns
    ensures r.Success? ==> IsRanking(momentumDf, ActiveSpecs(momentumDf, MomentumSpecs), r.value)
  {
    r := RankTable(momentumDf, MomentumSpecs);
  }

  /** A table with every return column ranks the returns and then exactly
      the moving-average indicators whose column exists; for a table with
      all or none of them that is seven or four ranks. */
  lemma MomentumActiveSpecs(t: Table)
    requires forall c :: 0 <= c < 4 ==> c in t.columns
    ensures ActiveSpecs(t, MomentumSpecs) == ReturnSpecs + ActiveSpecs(t, MASpecs)
    ensures (forall c :: c in MAColumns ==> c in t.columns) ==> ActiveSpecs(t, MomentumSpecs) == MomentumSpecs
    ensures (forall c :: c in MAColumns ==> c !in t.columns) ==> ActiveSpecs(t, MomentumSpecs) == ReturnSpecs
  {
    ActiveSpecsAppend(t, ReturnSpecs, MASpecs);
    ReturnsActive(t);
    MAActive(t);
    assert ReturnSpecs + [] == ReturnSpecs;
  }

  lemma ReturnsActive(t: Table)
    requires forall c :: 0 <= c < 4 ==> c in t.columns
    ensures ActiveSpecs(t, ReturnSpecs) == ReturnSpecs
  {
    assert forall j :: 0 <= j < |ReturnSpecs| ==> ReturnSpecs[j].column == j;
    ActiveSpecsUniform(t, ReturnSpecs);
  }

  lemma MAActive(t: Table)
    ensures (forall c :: c in MAColumns ==> c in t.columns) ==> ActiveSpecs(t, MASpecs) == MASpecs
    ensures (forall c :: c in MAColumns ==> c !in t.columns) ==> ActiveSpecs(t, MASpecs) == []
  {
    assert forall j :: 0 <= j < |MASpecs| ==> MASpecs[j].column in MAColumns;
    ActiveSpecsUniform(t, MASpecs);
  }

  /** Momentum ranks have no positivity filter: every present metric is
      ranked, negative returns included, and a higher value ranks first. */
  lemma MomentumRankSemantics(t: Table, out: seq<RankedRow>, x: RankedRow, y: RankedRow)
    requires WellFormed(t) && t.width == Width
    requires IsRanking(t, ActiveSpecs(t, MomentumSpecs), out) && x in out && y in out
    ensures var active := ActiveSpecs(t, MomentumSpecs);
            && |x.ranks| == |active| && |y.ranks| == |active|
            && |x.row.metrics| == Width && |y.row.metrics| == Width
            && (forall j :: 0 <= j < |active| ==> active[j].column < Width)
            && (forall j :: 0 <= j < |active| ==> (x.ranks[j].Some? <==> x.row.metrics[active[j].column].Some?))
            && (forall j :: 0 <= j < |active| ==> (y.ranks[j].Some? <==> y.row.metrics[active[j].column].Some?))
            && (forall j :: 0 <= j < |active| && x.ranks[j].Some? && y.ranks[j].Some? ==>
                 (x.ranks[j].value < y.ranks[j].value
                  <==> x.row.metrics[active[j].column].value > y.row.metrics[active[j].column].value))
  {
    var active := ActiveSpecs(t, MomentumSpecs);
    RankedRowShape(t, active, out, x);
    RankedRowShape(t, active, out, y);
    forall j | 0 <= j < |active|
      ensures active[j].column < Width
      ensures x.ranks[j].Some? <==> x.row.metrics[active[j].column].Some?
      ensures y.ranks[j].Some? <==> y.row.metrics[active[j].column].Some?
      ensures x.ranks[j].Some? && y.ranks[j].Some? ==>
                (x.ranks[j].value < y.ranks[j].value
                 <==> x.row.metrics[active[j].column].value > y.row.metrics[active[j].column].value)
    {
      MomentumSpecUniform(active[j]);
      RankedPairAt(t, active, out, x, y, j);
    }
  }

  /** Every momentum rank is descending and unfiltered. */
  lemma MomentumSpecUniform(spec: RankSpec)
    requires spec in MomentumSpecs
    ensures spec.direction == Descending && spec.filter == AnyPresent && spec.column < Width
  {
  }
}
