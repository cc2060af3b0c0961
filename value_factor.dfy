/**
 * The value factor: the per-ticker value metrics built from the market
 * data provider's `info` dict and the latest price, and the value ranking
 * (P/E, P/B and EV/EBITDA ascending, dividend yield descending, each over
 * strictly positive values only).
 */
module ValueFactor {
  import opened Common
  import opened Ranking

  // Column positions of the value metric table.
  const Price := 0
  const PE := 1
  const PB := 2
  const DividendYield := 3
  const EvEbitda := 4
  const MarketCapB := 5
  const Width := 6

  // Positions of the value rank columns.
  const PERank := 0
  const PBRank := 1
  const DividendRank := 2
  const EvEbitdaRank := 3

  /** The fields of the provider's `info` dict the value factor reads; a key
      that is absent reads as missing. */
  datatype ValueInfo = ValueInfo(
    trailingPE: Option<real>,
    priceToBook: Option<real>,
    dividendYield: Option<real>,
    enterpriseToEbitda: Option<real>,
    marketCap: Option<real>)

  /** The provider's answer for one ticker: its `info`, or an exception. */
  datatype InfoFetch = InfoFailed | InfoFetched(info: ValueInfo)

  /** Dividend yield in percent: the provider value times 100 when it is
      truthy, otherwise missing (a provider 0 becomes missing). */
  function DividendPercent(v: Option<real>): Option<real> {
    if Truthy(v) then Some(v.value * 100.0) else None
  }

  /** Market capitalisation in billions. */
  function Billions(v: Option<real>): Option<real> {
    if v.Some? then Some(v.value / 1000000000.0) else None
  }

  /** The value metrics of one ticker, in column order. */
  function ValueMetrics(price: Option<real>, info: ValueInfo): (m: seq<Option<real>>)
    ensures |m| == Width
  {
    [price, info.trailingPE, info.priceToBook, DividendPercent(info.dividendYield),
     info.enterpriseToEbitda, Billions(info.marketCap)]
  }

  /** The dict of value metrics after processing the tickers of `latest`
      (ticker, latest price) in order; a ticker whose `info` raises is
      skipped. */
  function ValueRows(latest: seq<(string, Option<real>)>, fetch: string -> InfoFetch): (rows: seq<Row>)
    ensures forall i :: 0 <= i < |rows| ==> |rows[i].metrics| == Width
    decreases |latest|
  {
    if latest == [] then []
    else
      var rows := ValueRows(latest[..|latest| - 1], fetch);
      var entry := latest[|latest| - 1];
      match fetch(entry.0)
      case InfoFailed => rows
      case InfoFetched(info) => Put(rows, Row(entry.0, ValueMetrics(entry.1, info)))
  }

  /** The value metric table as `from_dict(..., orient='index')` builds it. */
  function ValueTable(latest: seq<(string, Option<real>)>, fetch: string -> InfoFetch): (t: Table)
    ensures WellFormed(t) && t.width == Width && SpecsFit(t, ValueSpecs)
    ensures t.rows == ValueRows(latest, fetch)
  {
    var t := FromRows(Width, ValueRows(latest, fetch));
    ValueSpecsFit(t);
    t
  }

  /** The value metric table. */
  method CalculateValueFactors(latest: seq<(string, Option<real>)>, fetch: string -> InfoFetch)
    returns (t: Table)
    ensures t == ValueTable(latest, fetch)
  {
    var rows: seq<Row> := [];
    for k := 0 to |latest|
      invariant rows == ValueRows(latest[..k], fetch)
    {
      assert latest[..k + 1][..k] == latest[..k];
      var entry := latest[k];
      var f := fetch(entry.0);
      if f.InfoFetched? {
        rows := Put(rows, Row(entry.0, ValueMetrics(entry.1, f.info)));
      }
      // otherwise the error is reported and the ticker left out
    }
    assert latest[..|latest|] == latest;
    t := FromRows(Width, rows);
  }

  /** A ticker is in the value table exactly when it is among the latest
      prices and its `info` could be fetched. */
  lemma {:induction false} ValueRowsTickers(latest: seq<(string, Option<real>)>, fetch: string -> InfoFetch, k: string)
    ensures k in TickerSet(ValueRows(latest, fetch))
            <==> (exists i :: 0 <= i < |latest| && latest[i].0 == k) && fetch(k).InfoFetched?
    decreases |latest|
  {
    if latest != [] {
      var p := latest[..|latest| - 1];
      ValueRowsTickers(p, fetch, k);
      assert forall i :: 0 <= i < |p| ==> p[i] == latest[i];
      if (exists i :: 0 <= i < |latest| && latest[i].0 == k) && fetch(k).InfoFetched? {
        var i :| 0 <= i < |latest| && latest[i].0 == k;
        if i < |p| { assert p[i].0 == k; }
      }
    }
  }

  /** Every row of the value table carries the value metrics of a fetched
      `info` and of a latest price given for that ticker. */
  lemma {:induction false} ValueRowsMetrics(latest: seq<(string, Option<real>)>, fetch: string -> InfoFetch, row: Row)
    requires row in ValueRows(latest, fetch)
    ensures fetch(row.ticker).InfoFetched?
    ensures exists i :: 0 <= i < |latest| && latest[i].0 == row.ticker
                        && row.metrics == ValueMetrics(latest[i].1, fetch(row.ticker).info)
    decreases |latest|
  {
    var p := latest[..|latest| - 1];
    var rows := ValueRows(p, fetch);
    if row in rows {
      ValueRowsMetrics(p, fetch, row);
      var i :| 0 <= i < |p| && p[i].0 == row.ticker && row.metrics == ValueMetrics(p[i].1, fetch(row.ticker).info);
      assert latest[i] == p[i];
    }
  }

  const ValueSpecs: seq<RankSpec> := [
    RankSpec(PE, Ascending, PositiveOnly, false),
    RankSpec(PB, Ascending, PositiveOnly, false),
    RankSpec(DividendYield, Descending, PositiveOnly, false),
    RankSpec(EvEbitda, Ascending, PositiveOnly, false)
  ]

  /** Ranks a copy of the value table; fails with the `KeyError` of the
      first absent metric column. */
  method RankValueStocks(valueDf: Table) returns (r: Result<seq<RankedRow>, RankError>)
    requires WellFormed(valueDf) && valueDf.width == Width
    ensures r.Failure? <==> exists j :: 0 <= j < |ValueSpecs| && ValueSpecs[j].column !in valueDf.columns
    ensures r.Success? ==> IsRanking(valueDf, ValueSpecs, r.value)
  {
    r := RankTable(valueDf, ValueSpecs);
    if r.Success? {
      AllRequiredActive(valueDf, ValueSpecs);
    }
  }

  /** A value table built from at least one ticker has every column, so it
      ranks; one built from none has no column and raises. */
  lemma ValueRankingFailsOnlyWhenEmpty(t: Table)
    requires t.width == Width && t.columns == (if t.rows == [] then {} else AllColumns(Width))
    ensures (exists j :: 0 <= j < |ValueSpecs| && ValueSpecs[j].column !in t.columns) <==> t.rows == []
  {
    if t.rows == [] {
      assert ValueSpecs[0].column !in t.columns;
    }
  }

  /** An asset is ranked on a value metric exactly when that metric is
      present and positive. */
  predicate RankedWhenPositive(x: RankedRow) {
    |x.ranks| == 4 && |x.row.metrics| == Width
    && (x.ranks[PERank].Some? <==> x.row.metrics[PE].Some? && x.row.metrics[PE].value > 0.0)
    && (x.ranks[PBRank].Some? <==> x.row.metrics[PB].Some? && x.row.metrics[PB].value > 0.0)
    && (x.ranks[DividendRank].Some?
        <==> x.row.metrics[DividendYield].Some? && x.row.metrics[DividendYield].value > 0.0)
    && (x.ranks[EvEbitdaRank].Some? <==> x.row.metrics[EvEbitda].Some? && x.row.metrics[EvEbitda].value > 0.0)
  }

  /** Which assets get which value rank, and in which direction: P/E, P/B
      and EV/EBITDA ranks grow with the metric, the dividend rank shrinks
      as the yield grows; equal ranks mean equal values. */
  lemma ValueRankSemantics(t: Table, out: seq<RankedRow>, x: RankedRow, y: RankedRow)
    requires WellFormed(t) && t.width == Width && IsRanking(t, ValueSpecs, out)
    requires x in out && y in out
    ensures RankedWhenPositive(x) && RankedWhenPositive(y)
    ensures x.ranks[PERank].Some? && y.ranks[PERank].Some? ==>
              (x.ranks[PERank].value < y.ranks[PERank].value <==> x.row.metrics[PE].value < y.row.metrics[PE].value)
    ensures x.ranks[PBRank].Some? && y.ranks[PBRank].Some? ==>
              (x.ranks[PBRank].value < y.ranks[PBRank].value <==> x.row.metrics[PB].value < y.row.metrics[PB].value)
    ensures x.ranks[DividendRank].Some? && y.ranks[DividendRank].Some? ==>
              (x.ranks[DividendRank].value < y.ranks[DividendRank].value
               <==> x.row.metrics[DividendYield].value > y.row.metrics[DividendYield].value)
    ensures x.ranks[EvEbitdaRank].Some? && y.ranks[EvEbitdaRank].Some? ==>
              (x.ranks[EvEbitdaRank].value < y.ranks[EvEbitdaRank].value
               <==> x.row.metrics[EvEbitda].value < y.row.metrics[EvEbitda].value)
    ensures forall j :: 0 <= j < 4 && x.ranks[j].Some? && y.ranks[j].Some? ==>
              (x.ranks[j].value == y.ranks[j].value
               <==> x.row.metrics[ValueSpecs[j].column].value == y.row.metrics[ValueSpecs[j].column].value)
  {
    ValueSpecsFit(t);
    RankedPairAt(t, ValueSpecs, out, x, y, PERank);
    RankedPairAt(t, ValueSpecs, out, x, y, PBRank);
    RankedPairAt(t, ValueSpecs, out, x, y, DividendRank);
    RankedPairAt(t, ValueSpecs, out, x, y, EvEbitdaRank);
    forall j | 0 <= j < 4 && x.ranks[j].Some? && y.ranks[j].Some?
      ensures x.ranks[j].value == y.ranks[j].value
              <==> x.row.metrics[ValueSpecs[j].column].value == y.row.metrics[ValueSpecs[j].column].value
    {
      RankedPairAt(t, ValueSpecs, out, x, y, j);
    }
  }

  lemma ValueSpecsFit(t: Table)
    requires t.width == Width
    ensures SpecsFit(t, ValueSpecs) && |ValueSpecs| == 4
  {
  }

  /** End to end: a ticker whose provider dividend yield is missing or 0
      has no dividend rank in the ranking of the value table. */
  lemma ZeroDividendUnranked(latest: seq<(string, Option<real>)>, fetch: string -> InfoFetch,
                             out: seq<RankedRow>, x: RankedRow)
    requires IsRanking(ValueTable(latest, fetch), ValueSpecs, out)
    requires x in out
    requires fetch(x.row.ticker).InfoFetched? && !Truthy(fetch(x.row.ticker).info.dividendYield)
    ensures |x.ranks| == 4 && x.ranks[DividendRank].None?
  {
    var t := ValueTable(latest, fetch);
    RankedRowFacts(t, ValueSpecs, out, x);
    ValueRowsMetrics(latest, fetch, x.row);
  }
}
