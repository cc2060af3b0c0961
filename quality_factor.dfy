/**
 * The quality factor: ROE, ROA, debt-to-equity, operating margin and free
 * cash flow yield from the latest annual statements, or from the
 * provider's `info` dict when the statements are unusable, and the quality
 * ranking (D/E ascending, the other four descending, each over strictly
 * positive values only).
 */
module QualityFactor {
  import opened Common
  import opened Ranking

  // Column positions of the quality metric table.
  const ROE := 0
  const ROA := 1
  const DebtToEquity := 2
  const OperatingMargin := 3
  const FcfYield := 4
  const MarketCapB := 5
  const Width := 6

  // Positions of the quality rank columns.
  const ROERank := 0
  const ROARank := 1
  const DERank := 2
  const OperatingMarginRank := 3
  const FcfYieldRank := 4

  /** The fields of the provider's `info` dict the quality factor reads; an
      absent key reads as missing. */
  datatype QualityInfo = QualityInfo(
    returnOnEquity: Option<real>,
    returnOnAssets: Option<real>,
    debtToEquity: Option<real>,
    operatingMargins: Option<real>,
    marketCap: Option<real>)

  /** The latest column of a financial statement: line item name to value.
      The empty list is an empty statement. */
  type Statement = seq<(string, Option<real>)>

  /** The three statements, or the exception raised while fetching them. */
  datatype Statements =
    | StatementsFailed
    | Statements(balanceSheet: Statement, incomeStmt: Statement, cashFlow: Statement)

  /** The provider's answer for one ticker: an exception while reading
      `info`, or `info` and the statements. */
  datatype QualityFetch = InfoFailed | Fetched(info: QualityInfo, statements: Statements)

  /** `num / den` when both line items exist; a line item that exists may
      still hold a missing value. */
  function LineRatio(num: Option<Option<real>>, den: Option<Option<real>>): (r: Option<real>)
    ensures r.Some? ==> num.Some? && den.Some?
    ensures num.Some? && den.Some? ==> r == Ratio(num.value, den.value)
  {
    if num.Some? && den.Some? then Ratio(num.value, den.value) else None
  }

  /** Debt-to-equity from `info`, which the provider reports in percent. */
  function InfoDebtToEquity(v: Option<real>): (r: Option<real>)
    ensures r.Some? <==> Truthy(v)
    ensures r.Some? ==> r.value * 100.0 == v.value
  {
    if Truthy(v) then Some(v.value / 100.0) else None
  }

  function Billions(v: Option<real>): Option<real> {
    Scale(v, 1.0 / 1000000000.0)
  }

  const NoMetrics: seq<Option<real>> := [None, None, None, None, None, None]

  lemma NoMetricsMissing()
    ensures forall c :: 0 <= c < |NoMetrics| ==> NoMetrics[c].None?
  {
  }

  /** The metrics from the statements, all three non-empty. */
  function StatementMetrics(info: QualityInfo, bs: Statement, income: Statement, cf: Statement): (m: seq<Option<real>>)
    ensures |m| == Width
  {
    var netIncome := Lookup(income, "Net Income");
    var equity := Lookup(bs, "Total Stockholder Equity");
    [LineRatio(netIncome, equity),
     LineRatio(netIncome, Lookup(bs, "Total Assets")),
     LineRatio(Lookup(bs, "Total Debt"), equity),
     LineRatio(Lookup(income, "Operating Income"), Lookup(income, "Total Revenue")),
     LineRatio(Lookup(cf, "Free Cash Flow"), if info.marketCap.Some? then Some(info.marketCap) else None),
     Billions(info.marketCap)]
  }

  /** The metrics from `info` alone; free cash flow yield is not there. */
  function InfoMetrics(info: QualityInfo): (m: seq<Option<real>>)
    ensures |m| == Width
  {
    [info.returnOnEquity, info.returnOnAssets, InfoDebtToEquity(info.debtToEquity),
     info.operatingMargins, None, Billions(info.marketCap)]
  }

  /** The quality metrics of one ticker: from the statements when all three
      are non-empty, from `info` when one is empty or fetching them raised,
      and all missing when `info` itself raised. */
  function QualityMetrics(f: QualityFetch): (m: seq<Option<real>>)
    ensures |m| == Width
  {
    match f
    case InfoFailed => NoMetrics
    case Fetched(info, StatementsFailed) => InfoMetrics(info)
    case Fetched(info, Statements(bs, income, cf)) =>
      if bs != [] && income != [] && cf != [] then StatementMetrics(info, bs, income, cf)
      else InfoMetrics(info)
  }

  /** The dict of quality metrics after processing `tickers` in order;
      every ticker gets a row. */
  function QualityRows(tickers: seq<string>, fetch: string -> QualityFetch): (rows: seq<Row>)
    ensures forall i :: 0 <= i < |rows| ==> |rows[i].metrics| == Width
    decreases |tickers|
  {
    if tickers == [] then []
    else
      var k := tickers[|tickers| - 1];
      Put(QualityRows(tickers[..|tickers| - 1], fetch), Row(k, QualityMetrics(fetch(k))))
  }

  /** The quality metric table as `from_dict(..., orient='index')` builds it. */
  function QualityTable(tickers: seq<string>, fetch: string -> QualityFetch): (t: Table)
    ensures WellFormed(t) && t.width == Width && SpecsFit(t, QualitySpecs)
    ensures t.rows == QualityRows(tickers, fetch)
  {
    var t := FromRows(Width, QualityRows(tickers, fetch));
    QualitySpecsFit(t);
    t
  }

  /** The quality metric table. */
  method CalculateQualityFactors(tickers: seq<string>, fetch: string -> QualityFetch) returns (t: Table)
    ensures t == QualityTable(tickers, fetch)
  {
    var rows: seq<Row> := [];
    for k := 0 to |tickers|
      invariant rows == QualityRows(tickers[..k], fetch)
    {
      assert tickers[..k + 1][..k] == tickers[..k];
      var ticker := tickers[k];
      var metrics := QualityMetrics(fetch(ticker));
      rows := Put(rows, Row(ticker, metrics));
    }
    assert tickers[..|tickers|] == tickers;
    t := FromRows(Width, rows);
  }

  /** Every ticker, and no other, has a row, and each row holds that
      ticker's metrics. */
  lemma {:induction false} QualityRowsContents(tickers: seq<string>, fetch: string -> QualityFetch)
    ensures forall k :: k in TickerSet(QualityRows(tickers, fetch)) <==> k in tickers
    ensures forall row :: row in QualityRows(tickers, fetch) ==> row.metrics == QualityMetrics(fetch(row.ticker))
    decreases |tickers|
  {
    if tickers != [] {
      var p := tickers[..|tickers| - 1];
      QualityRowsContents(p, fetch);
      assert tickers == p + [tickers[|tickers| - 1]];
    }
  }

  const QualitySpecs: seq<RankSpec> := [
    RankSpec(ROE, Descending, PositiveOnly, false),
    RankSpec(ROA, Descending, PositiveOnly, false),
    RankSpec(DebtToEquity, Ascending, PositiveOnly, false),
    RankSpec(OperatingMargin, Descending, PositiveOnly, false),
    RankSpec(FcfYield, Descending, PositiveOnly, false)
  ]

  /** Ranks a copy of the quality table; fails with the `KeyError` of the
      first absent metric column. */
  method RankQualityStocks(qualityDf: Table) returns (r: Result<seq<RankedRow>, RankError>)
    requires WellFormed(qualityDf) && qualityDf.width == Width
    ensures r.Failure? <==> exists j :: 0 <= j < |QualitySpecs| && QualitySpecs[j].column !in qualityDf.columns
    ensures r.Success? ==> IsRanking(qualityDf, QualitySpecs, r.value)
  {
    r := RankTable(qualityDf, QualitySpecs);
    if r.Success? {
      AllRequiredActive(qualityDf, QualitySpecs);
    }
  }

  /** An asset is ranked on a quality metric exactly when that metric is
      present and positive. */
  predicate RankedWhenPositive(x: RankedRow) {
    |x.ranks| == 5 && |x.row.metrics| == Width
    && (x.ranks[ROERank].Some? <==> x.row.metrics[ROE].Some? && x.row.metrics[ROE].value > 0.0)
    && (x.ranks[ROARank].Some? <==> x.row.metrics[ROA].Some? && x.row.metrics[ROA].value > 0.0)
    && (x.ranks[DERank].Some? <==> x.row.metrics[DebtToEquity].Some? && x.row.metrics[DebtToEquity].value > 0.0)
    && (x.ranks[OperatingMarginRank].Some?
        <==> x.row.metrics[OperatingMargin].Some? && x.row.metrics[OperatingMargin].value > 0.0)
    && (x.ranks[FcfYieldRank].Some? <==> x.row.metrics[FcfYield].Some? && x.row.metrics[FcfYield].value > 0.0)
  }

  /** The direction of every quality rank: a higher ROE, ROA, operating
      margin or FCF yield ranks first, a lower debt-to-equity ranks
      first. */
  lemma QualityRankSemantics(t: Table, out: seq<RankedRow>, x: RankedRow, y: RankedRow)
    requires WellFormed(t) && t.width == Width && IsRanking(t, QualitySpecs, out)
    requires x in out && y in out
    ensures RankedWhenPositive(x) && RankedWhenPositive(y)
    ensures x.ranks[ROERank].Some? && y.ranks[ROERank].Some? ==>
              (x.ranks[ROERank].value < y.ranks[ROERank].value <==> x.row.metrics[ROE].value > y.row.metrics[ROE].value)
    ensures x.ranks[ROARank].Some? && y.ranks[ROARank].Some? ==>
              (x.ranks[ROARank].value < y.ranks[ROARank].value <==> x.row.metrics[ROA].value > y.row.metrics[ROA].value)
    ensures x.ranks[DERank].Some? && y.ranks[DERank].Some? ==>
              (x.ranks[DERank].value < y.ranks[DERank].value
               <==> x.row.metrics[DebtToEquity].value < y.row.metrics[DebtToEquity].value)
    ensures x.ranks[OperatingMarginRank].Some? && y.ranks[OperatingMarginRank].Some? ==>
              (x.ranks[OperatingMarginRank].value < y.ranks[OperatingMarginRank].value
               <==> x.row.metrics[OperatingMargin].value > y.row.metrics[OperatingMargin].value)
    ensures x.ranks[FcfYieldRank].Some? && y.ranks[FcfYieldRank].Some? ==>
              (x.ranks[FcfYieldRank].value < y.ranks[FcfYieldRank].value
               <==> x.row.metrics[FcfYield].value > y.row.metrics[FcfYield].value)
    ensures forall j :: 0 <= j < 5 && x.ranks[j].Some? && y.ranks[j].Some? ==>
              (x.ranks[j].value == y.ranks[j].value
               <==> x.row.metrics[QualitySpecs[j].column].value == y.row.metrics[QualitySpecs[j].column].value)
  {
    QualitySpecsFit(t);
    RankedPairAt(t, QualitySpecs, out, x, y, ROERank);
    RankedPairAt(t, QualitySpecs, out, x, y, ROARank);
    RankedPairAt(t, QualitySpecs, out, x, y, DERank);
    RankedPairAt(t, QualitySpecs, out, x, y, OperatingMarginRank);
    RankedPairAt(t, QualitySpecs, out, x, y, FcfYieldRank);
    forall j | 0 <= j < 5 && x.ranks[j].Some? && y.ranks[j].Some?
      ensures x.ranks[j].value == y.ranks[j].value
              <==> x.row.metrics[QualitySpecs[j].column].value == y.row.metrics[QualitySpecs[j].column].value
    {
      RankedPairAt(t, QualitySpecs, out, x, y, j);
    }
  }

  /** A row of the quality table holds its ticker's metrics. */
  lemma {:induction false} QualityRowMetrics(tickers: seq<string>, fetch: string -> QualityFetch, row: Row)
    requires row in QualityRows(tickers, fetch)
    ensures row.metrics == QualityMetrics(fetch(row.ticker))
    decreases |tickers|
  {
    var p := tickers[..|tickers| - 1];
    if row !in [Row(tickers[|tickers| - 1], QualityMetrics(fetch(tickers[|tickers| - 1])))] {
      QualityRowMetrics(p, fetch, row);
    }
  }

  lemma QualitySpecsFit(t: Table)
    requires t.width == Width
    ensures SpecsFit(t, QualitySpecs) && |QualitySpecs| == 5
  {
  }

  /** What the ranking says about one ranked quality row. */
  lemma QualityRankedRow(tickers: seq<string>, fetch: string -> QualityFetch, out: seq<RankedRow>, x: RankedRow)
    requires IsRanking(QualityTable(tickers, fetch), QualitySpecs, out)
    requires x in out
    ensures |x.ranks| == 5 && x.row.metrics == QualityMetrics(fetch(x.row.ticker))
    ensures forall j :: 0 <= j < 5 ==>
              (x.ranks[j].Some? <==> Passes(x.row.metrics[QualitySpecs[j].column], QualitySpecs[j].filter))
  {
    var t := QualityTable(tickers, fetch);
    QualitySpecsFit(t);
    RankedRowFacts(t, QualitySpecs, out, x);
    QualityRowMetrics(tickers, fetch, x.row);
  }

  /** A ticker whose `info` raised gets no rank and no composite, and sorts
      after every ranked ticker. */
  lemma FailedTickerUnranked(tickers: seq<string>, fetch: string -> QualityFetch, out: seq<RankedRow>, x: RankedRow)
    requires IsRanking(QualityTable(tickers, fetch), QualitySpecs, out)
    requires x in out && fetch(x.row.ticker).InfoFailed?
    ensures |x.ranks| == 5 && forall j :: 0 <= j < 5 ==> x.ranks[j].None?
    ensures x.composite.None?
    ensures forall k, y :: 0 <= k < |out| && out[k] == x && y in out[k..] ==> y.composite.None?
  {
    var t := QualityTable(tickers, fetch);
    QualitySpecsFit(t);
    QualityRankedRow(tickers, fetch, out, x);
    assert x.row.metrics == NoMetrics;
    NoMetricsMissing();
    AllMissingUnranked(t, QualitySpecs, out, x);
  }

  /** When the statements raised, or any of the three is empty, the
      metrics come from `info`: the provider's debt-to-equity percentage is
      divided by 100 (0 or missing gives no value), and there is no FCF
      yield, hence no FCF rank. */
  lemma InfoFallback(tickers: seq<string>, fetch: string -> QualityFetch, out: seq<RankedRow>, x: RankedRow)
    requires IsRanking(QualityTable(tickers, fetch), QualitySpecs, out)
    requires x in out
    requires var f := fetch(x.row.ticker);
             f.Fetched? && (f.statements.Statements? ==>
               !(f.statements.balanceSheet != [] && f.statements.incomeStmt != [] && f.statements.cashFlow != []))
    ensures |x.ranks| == 5 && |x.row.metrics| == Width
    ensures x.row.metrics[ROE] == fetch(x.row.ticker).info.returnOnEquity
    ensures Truthy(fetch(x.row.ticker).info.debtToEquity)
            ==> x.row.metrics[DebtToEquity] == Some(fetch(x.row.ticker).info.debtToEquity.value / 100.0)
    ensures !Truthy(fetch(x.row.ticker).info.debtToEquity) ==> x.ranks[DERank].None?
    ensures x.ranks[FcfYieldRank].None?
  {
    QualityRankedRow(tickers, fetch, out, x);
    var f := fetch(x.row.ticker);
    assert x.row.metrics == InfoMetrics(f.info);
    assert QualitySpecs[DERank].column == DebtToEquity && QualitySpecs[FcfYieldRank].column == FcfYield;
  }
}
