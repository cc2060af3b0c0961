/**
 * The growth factor: one-year and latest-quarter revenue and earnings
 * growth from the provider's annual and quarterly income statements, and
 * the growth ranking (all four descending, over strictly positive growth
 * only).
 */
module GrowthFactor {
  import opened Common
  import opened Ranking

  // Column positions of the growth metric table; rank `j` ranks column `j`.
  const RevenueGrowth1Y := 0
  const EarningsGrowth1Y := 1
  const RevenueGrowthQ := 2
  const EarningsGrowthQ := 3
  const Width := 4

  /** A financial statement: `periods` columns, newest first, and for each
      line item its values over the periods. */
  datatype Financials = Financials(periods: nat, items: seq<(string, seq<Option<real>>)>)

  /** A statement as a frame holds it: every line item has one value per
      period. The growth functions read only the first two values of a
      line, so they are defined on any statement; this shape is what
      relates a line's length to the number of periods. */
  predicate Shaped(f: Financials) {
    forall i :: 0 <= i < |f.items| ==> |f.items[i].1| == f.periods
  }

  /** `DataFrame.empty`: no line item or no period. */
  predicate IsEmpty(f: Financials) {
    f.periods == 0 || f.items == []
  }

  /** The quarterly statements, or the exception raised fetching them. */
  datatype QuarterlyFetch = QuarterlyFailed | Quarterly(statement: Financials)

  /** The provider's answer for one ticker: an exception while fetching the
      annual statements, or the annual statements and then the quarterly
      ones. */
  datatype GrowthFetch = AnnualFailed | Annual(annual: Financials, quarterly: QuarterlyFetch)

  /** Growth of the newest period over the one before it:
      `values[0] / values[1] - 1`; missing with fewer than two periods, a
      missing value, or a zero base. */
  function GrowthRate(values: seq<Option<real>>): (g: Option<real>)
    ensures g.Some? <==> |values| >= 2 && values[0].Some? && values[1].Some? && values[1].value != 0.0
    ensures g.Some? ==> (g.value + 1.0) * values[1].value == values[0].value
  {
    if |values| >= 2 then
      var r := Ratio(values[0], values[1]);
      if r.Some? then Some(r.value - 1.0) else None
    else None
  }

  /** Growth over a positive base is positive exactly when the value grew. */
  lemma GrowthPositiveIffGrew(values: seq<Option<real>>)
    requires |values| >= 2 && values[0].Some? && values[1].Some? && values[1].value > 0.0
    ensures GrowthRate(values).Some?
    ensures GrowthRate(values).value > 0.0 <==> values[0].value > values[1].value
  {
    var g := GrowthRate(values).value;
    assert (g + 1.0) * values[1].value == values[0].value;
    if g > 0.0 {
      assert (g + 1.0) * values[1].value > values[1].value;
    } else {
      assert (g + 1.0) * values[1].value <= values[1].value;
    }
  }

  /** Over a negative base (a loss the year before) the sign flips: the
      growth is positive exactly when the loss got larger. */
  lemma GrowthSignOverLoss(values: seq<Option<real>>)
    requires |values| >= 2 && values[0].Some? && values[1].Some? && values[1].value < 0.0
    ensures GrowthRate(values).Some?
    ensures GrowthRate(values).value > 0.0 <==> values[0].value < values[1].value
  {
    var g := GrowthRate(values).value;
    assert (g + 1.0) * values[1].value == values[0].value;
    if g > 0.0 {
      assert (g + 1.0) * values[1].value < values[1].value;
    } else {
      assert (g + 1.0) * values[1].value >= values[1].value;
    }
  }

  /** The growth of a line item of a statement; missing when the line item
      is absent. */
  function LineGrowth(f: Financials, item: string): (g: Option<real>)
    ensures Lookup(f.items, item).None? ==> g.None?
    ensures Lookup(f.items, item).Some? ==> g == GrowthRate(Lookup(f.items, item).value)
  {
    var values := Lookup(f.items, item);
    if values.Some? then GrowthRate(values.value) else None
  }

  /** `len(revenues) >= 2` counts the periods: a statement with fewer than
      two periods gives no growth for any line, and with two or more it
      gives growth for a line whose two newest values are present with a
      nonzero base. */
  lemma LineGrowthNeedsTwoPeriods(f: Financials, item: string)
    requires Shaped(f) && Lookup(f.items, item).Some?
    ensures f.periods < 2 ==> LineGrowth(f, item).None?
    ensures var v := Lookup(f.items, item).value;
            f.periods >= 2 && v[0].Some? && v[1].Some? && v[1].value != 0.0 ==> LineGrowth(f, item).Some?
  {
    var i :| 0 <= i < |f.items| && f.items[i] == (item, Lookup(f.items, item).value);
    assert |f.items[i].1| == f.periods;
  }

  /** The quarterly growth of a line item; missing for an empty statement. */
  function QuarterlyGrowth(q: Financials, item: string): (g: Option<real>)
    ensures IsEmpty(q) ==> g.None?
    ensures !IsEmpty(q) ==> g == LineGrowth(q, item)
  {
    if IsEmpty(q) then None else LineGrowth(q, item)
  }

  const NoMetrics: seq<Option<real>> := [None, None, None, None]

  lemma NoMetricsMissing()
    ensures forall c :: 0 <= c < |NoMetrics| ==> NoMetrics[c].None?
  {
  }

  /** The growth row of a ticker whose annual statements are non-empty, or
      all missing when a fetch raised; `None` when the ticker is skipped
      (its annual statements are empty). */
  function GrowthMetrics(f: GrowthFetch): (m: Option<seq<Option<real>>>)
    ensures m.None? <==> f.Annual? && IsEmpty(f.annual)
    ensures m.Some? ==> |m.value| == Width
  {
    match f
    case AnnualFailed => Some(NoMetrics)
    case Annual(annual, quarterly) =>
      if IsEmpty(annual) then None
      else match quarterly
        case QuarterlyFailed => Some(NoMetrics)
        case Quarterly(q) =>
          Some([LineGrowth(annual, "Total Revenue"), LineGrowth(annual, "Net Income"),
                QuarterlyGrowth(q, "Total Revenue"), QuarterlyGrowth(q, "Net Income")])
  }

  /** The dict of growth metrics after processing `tickers` in order. */
  function GrowthRows(tickers: seq<string>, fetch: string -> GrowthFetch): (rows: seq<Row>)
    ensures forall i :: 0 <= i < |rows| ==> |rows[i].metrics| == Width
    decreases |tickers|
  {
    if tickers == [] then []
    else
      var rows := GrowthRows(tickers[..|tickers| - 1], fetch);
      var k := tickers[|tickers| - 1];
      var m := GrowthMetrics(fetch(k));
      if m.Some? then Put(rows, Row(k, m.value)) else rows
  }

  /** The growth metric table as `from_dict(..., orient='index')` builds it. */
  function GrowthTable(tickers: seq<string>, fetch: string -> GrowthFetch): (t: Table)
    ensures WellFormed(t) && t.width == Width && SpecsFit(t, GrowthSpecs)
    ensures t.rows == GrowthRows(tickers, fetch)
  {
    var t := FromRows(Width, GrowthRows(tickers, fetch));
    GrowthSpecsFit(t);
    t
  }

  /** The growth metric table. */
  method CalculateGrowthFactors(tickers: seq<string>, fetch: string -> GrowthFetch) returns (t: Table)
    ensures t == GrowthTable(tickers, fetch)
  {
    var rows: seq<Row> := [];
    for k := 0 to |tickers|
      invariant rows == GrowthRows(tickers[..k], fetch)
    {
      assert tickers[..k + 1][..k] == tickers[..k];
      var ticker := tickers[k];
      var m := GrowthMetrics(fetch(ticker));
      if m.Some? {
        rows := Put(rows, Row(ticker, m.value));
      }
    }
    assert tickers[..|tickers|] == tickers;
    t := FromRows(Width, rows);
  }

  /** A ticker has a row exactly when it is listed and its annual
      statements are not empty; each row holds that ticker's metrics. */
  lemma {:induction false} GrowthRowsContents(tickers: seq<string>, fetch: string -> GrowthFetch)
    ensures forall k :: k in TickerSet(GrowthRows(tickers, fetch)) <==> k in tickers && GrowthMetrics(fetch(k)).Some?
    ensures forall row :: row in GrowthRows(tickers, fetch) ==> Some(row.metrics) == GrowthMetrics(fetch(row.ticker))
    decreases |tickers|
  {
    if tickers != [] {
      var p := tickers[..|tickers| - 1];
      GrowthRowsContents(p, fetch);
      assert tickers == p + [tickers[|tickers| - 1]];
    }
  }

  const GrowthSpecs: seq<RankSpec> := [
    RankSpec(RevenueGrowth1Y, Descending, PositiveOnly, false),
    RankSpec(EarningsGrowth1Y, Descending, PositiveOnly, false),
    RankSpec(RevenueGrowthQ, Descending, PositiveOnly, false),
    RankSpec(EarningsGrowthQ, Descending, PositiveOnly, false)
  ]

  /** Ranks a copy of the growth table; fails with the `KeyError` of the
      first absent metric column. */
  method RankGrowthStocks(growthDf: Table) returns (r: Result<seq<RankedRow>, RankError>)
    requires WellFormed(growthDf) && growthDf.width == Width
    ensures r.Failure? <==> exists j :: 0 <= j < |GrowthSpecs| && GrowthSpecs[j].column !in growthDf.columns
    ensures r.Success? ==> IsRanking(growthDf, GrowthSpecs, r.value)
  {
    r := RankTable(growthDf, GrowthSpecs);
    if r.Success? {
      AllRequiredActive(growthDf, GrowthSpecs);
    }
  }

  /** Every growth rank ranks its own column: an asset is ranked exactly
      when that growth is present and positive, and higher growth ranks
      first. */
  lemma GrowthRankSemantics(t: Table, out: seq<RankedRow>, x: RankedRow, y: RankedRow)
    requires WellFormed(t) && t.width == Width && IsRanking(t, GrowthSpecs, out)
    requires x in out && y in out
    ensures |x.ranks| == 4 && |x.row.metrics| == Width && |y.ranks| == 4 && |y.row.metrics| == Width
    ensures forall j :: 0 <= j < 4 ==>
              (x.ranks[j].Some? <==> x.row.metrics[j].Some? && x.row.metrics[j].value > 0.0)
    ensures forall j :: 0 <= j < 4 ==>
              (y.ranks[j].Some? <==> y.row.metrics[j].Some? && y.row.metrics[j].value > 0.0)
    ensures forall j :: 0 <= j < 4 && x.ranks[j].Some? && y.ranks[j].Some? ==>
              (x.ranks[j].value < y.ranks[j].value <==> x.row.metrics[j].value > y.row.metrics[j].value)
    ensures forall j :: 0 <= j < 4 && x.ranks[j].Some? && y.ranks[j].Some? ==>
              (x.ranks[j].value == y.ranks[j].value <==> x.row.metrics[j].value == y.row.metrics[j].value)
  {
    assert forall j :: 0 <= j < 4 ==> GrowthSpecs[j] == RankSpec(j, Descending, PositiveOnly, false);
    GrowthSpecsFit(t);
    RankedRowFacts(t, GrowthSpecs, out, x);
    RankedRowFacts(t, GrowthSpecs, out, y);
    forall j | 0 <= j < 4 && x.ranks[j].Some? && y.ranks[j].Some?
      ensures x.ranks[j].value < y.ranks[j].value <==> x.row.metrics[j].value > y.row.metrics[j].value
      ensures x.ranks[j].value == y.ranks[j].value <==> x.row.metrics[j].value == y.row.metrics[j].value
    {
      RankedPairOrder(t, GrowthSpecs, out, x, y, j);
    }
  }

  /** A ticker whose annual or quarterly fetch raised gets no rank and no
      composite, and sorts after every ranked ticker. */
  lemma FailedTickerUnranked(tickers: seq<string>, fetch: string -> GrowthFetch, out: seq<RankedRow>, x: RankedRow)
    requires IsRanking(GrowthTable(tickers, fetch), GrowthSpecs, out)
    requires x in out
    requires fetch(x.row.ticker).AnnualFailed?
             || (fetch(x.row.ticker).Annual? && fetch(x.row.ticker).quarterly.QuarterlyFailed?)
    ensures |x.ranks| == 4 && forall j :: 0 <= j < 4 ==> x.ranks[j].None?
    ensures x.composite.None?
    ensures forall k, y :: 0 <= k < |out| && out[k] == x && y in out[k..] ==> y.composite.None?
  {
    var t := GrowthTable(tickers, fetch);
    GrowthSpecsFit(t);
    RankedRowFacts(t, GrowthSpecs, out, x);
    GrowthRowMetrics(tickers, fetch, x.row);
    assert x.row.metrics == NoMetrics;
    NoMetricsMissing();
    AllMissingUnranked(t, GrowthSpecs, out, x);
  }

  lemma GrowthSpecsFit(t: Table)
    requires t.width == Width
    ensures SpecsFit(t, GrowthSpecs) && |GrowthSpecs| == 4
  {
  }

  /** A row of the growth table holds its ticker's metrics. */
  lemma {:induction false} GrowthRowMetrics(tickers: seq<string>, fetch: string -> GrowthFetch, row: Row)
    requires row in GrowthRows(tickers, fetch)
    ensures Some(row.metrics) == GrowthMetrics(fetch(row.ticker))
    decreases |tickers|
  {
    var p := tickers[..|tickers| - 1];
    var k := tickers[|tickers| - 1];
    var m := GrowthMetrics(fetch(k));
    if m.None? || row != Row(k, m.value) {
      GrowthRowMetrics(p, fetch, row);
    }
  }
}
