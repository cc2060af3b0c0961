/**
 * The factor ranker shared by the four factor families: filter a metric
 * column, rank the surviving values with pandas' default tie policy
 * (`Series.rank(method='average')`), write the rank columns into a copy of
 * the metric table, average the rank columns each asset actually has into a
 * composite rank, and sort ascending by it.
 *
 * A family is a list of `RankSpec`s (which column, which direction, which
 * filter); the four family modules supply theirs.
 */
module Ranking {
  import opened Common

  /** `rank(ascending=True)`: the smallest value gets rank 1;
      `rank(ascending=False)`: the largest value gets rank 1. */
  datatype Direction = Ascending | Descending

  /** `PositiveOnly` is the `df[df[col] > 0]` filter (a NaN fails it);
      `AnyPresent` is no filter, where `rank` still leaves NaN unranked. */
  datatype Filter = PositiveOnly | AnyPresent

  predicate Passes(c: Option<real>, f: Filter) {
    c.Some? && (f == PositiveOnly ==> c.value > 0.0)
  }

  /** `a` ranks strictly before `b` under direction `d`. */
  predicate Better(d: Direction, a: real, b: real) {
    if d == Ascending then a < b else a > b
  }

  // ---------------------------------------------------------------------
  // Average-tie rank of a value among the surviving values
  // ---------------------------------------------------------------------

  /** Number of values in `s` ranked strictly before `x`. */
  function CountBetter(s: seq<real>, x: real, d: Direction): nat
    decreases |s|
  {
    if s == [] then 0
    else CountBetter(s[..|s| - 1], x, d) + (if Better(d, s[|s| - 1], x) then 1 else 0)
  }

  /** Number of values in `s` ranked strictly after `x`. */
  function CountWorse(s: seq<real>, x: real, d: Direction): nat
    decreases |s|
  {
    if s == [] then 0
    else CountWorse(s[..|s| - 1], x, d) + (if Better(d, x, s[|s| - 1]) then 1 else 0)
  }

  /** Number of values in `s` equal to `x`. */
  function CountEqual(s: seq<real>, x: real): nat
    decreases |s|
  {
    if s == [] then 0
    else CountEqual(s[..|s| - 1], x) + (if s[|s| - 1] == x then 1 else 0)
  }

  /** The rank pandas gives `x` among `s`: the tied values occupy positions
      CountBetter + 1 .. CountBetter + CountEqual, and each receives the
      average of those positions. */
  function AverageRank(s: seq<real>, x: real, d: Direction): real {
    CountBetter(s, x, d) as real + (CountEqual(s, x) as real + 1.0) / 2.0
  }

  lemma {:induction false} CountsPartition(s: seq<real>, x: real, d: Direction)
    ensures CountBetter(s, x, d) + CountEqual(s, x) + CountWorse(s, x, d) == |s|
    decreases |s|
  {
    if s != [] {
      CountsPartition(s[..|s| - 1], x, d);
    }
  }

  lemma {:induction false} CountEqualOfMember(s: seq<real>, x: real)
    requires x in s
    ensures CountEqual(s, x) >= 1
    decreases |s|
  {
    if s[|s| - 1] != x {
      var k :| 0 <= k < |s| && s[k] == x;
      assert s[..|s| - 1][k] == x;
      CountEqualOfMember(s[..|s| - 1], x);
    }
  }

  /** Every value that ranks before or alongside `x` ranks before `y`. */
  lemma {:induction false} CountBetterMonotone(s: seq<real>, x: real, y: real, d: Direction)
    requires Better(d, x, y)
    ensures CountBetter(s, y, d) >= CountBetter(s, x, d) + CountEqual(s, x)
    decreases |s|
  {
    if s != [] {
      CountBetterMonotone(s[..|s| - 1], x, y, d);
    }
  }

  /** Every rank of a surviving value lies in [1, m], m the number of
      survivors. */
  lemma RankWithin(s: seq<real>, x: real, d: Direction)
    requires x in s
    ensures 1.0 <= AverageRank(s, x, d) <= |s| as real
  {
    CountsPartition(s, x, d);
    CountEqualOfMember(s, x);
  }

  /** A value that ranks strictly before another gets a strictly smaller
      average rank. */
  lemma RankStrictlyMonotone(s: seq<real>, x: real, y: real, d: Direction)
    requires x in s
    requires Better(d, x, y)
    ensures AverageRank(s, x, d) < AverageRank(s, y, d)
  {
    CountBetterMonotone(s, x, y, d);
    CountEqualOfMember(s, x);
  }

  /** Ranks order the survivors exactly as the direction orders their
      values, and two survivors share a rank exactly when their values are
      equal. */
  lemma RankOrderIff(s: seq<real>, x: real, y: real, d: Direction)
    requires x in s && y in s
    ensures AverageRank(s, x, d) < AverageRank(s, y, d) <==> Better(d, x, y)
    ensures AverageRank(s, x, d) == AverageRank(s, y, d) <==> x == y
  {
    if Better(d, x, y) {
      RankStrictlyMonotone(s, x, y, d);
    } else if Better(d, y, x) {
      RankStrictlyMonotone(s, y, x, d);
    }
  }

  // ---------------------------------------------------------------------
  // The ranks of all survivors are the positions 1..m, redistributed
  // ---------------------------------------------------------------------

  /** The sum of the ranks, among `s`, of the values in `t`. */
  function SumRanks(t: seq<real>, s: seq<real>, d: Direction): real
    decreases |t|
  {
    if t == [] then 0.0 else SumRanks(t[..|t| - 1], s, d) + AverageRank(s, t[|t| - 1], d)
  }

  /** Adding `x` to the survivors moves each value of `t` ranked after `x`
      down one place and each value tied with `x` down half a place. */
  lemma {:induction false} SumRanksExtend(t: seq<real>, s: seq<real>, x: real, d: Direction)
    ensures SumRanks(t, s + [x], d)
         == SumRanks(t, s, d) + CountWorse(t, x, d) as real + CountEqual(t, x) as real / 2.0
    decreases |t|
  {
    if t != [] {
      var y := t[|t| - 1];
      assert (s + [x])[..|s + [x]| - 1] == s;
      assert CountBetter(s + [x], y, d) == CountBetter(s, y, d) + (if Better(d, x, y) then 1 else 0);
      assert CountEqual(s + [x], y) == CountEqual(s, y) + (if x == y then 1 else 0);
      SumRanksExtend(t[..|t| - 1], s, x, d);
    }
  }

  /** 1 + 2 + ... + m. */
  function Triangle(m: nat): real {
    if m == 0 then 0.0 else Triangle(m - 1) + m as real
  }

  lemma {:induction false} TriangleClosed(m: nat)
    ensures Triangle(m) == (m * (m + 1)) as real / 2.0
  {
    if m > 0 {
      TriangleClosed(m - 1);
      var before, after := (m - 1) * m, m * (m + 1);
      assert after == before + 2 * m;
      assert after as real == before as real + 2.0 * m as real;
    }
  }

  /** The ranks of m survivors add up to 1 + 2 + ... + m, as positions
      averaged over ties must. */
  lemma RankSum(s: seq<real>, d: Direction)
    ensures SumRanks(s, s, d) == (|s| * (|s| + 1)) as real / 2.0
  {
    RankSumTriangle(s, d);
    TriangleClosed(|s|);
  }

  lemma {:induction false} RankSumTriangle(s: seq<real>, d: Direction)
    ensures SumRanks(s, s, d) == Triangle(|s|)
    decreases |s|
  {
    if s != [] {
      var p := s[..|s| - 1];
      var x := s[|s| - 1];
      assert s == p + [x];
      RankSumTriangle(p, d);
      SumRanksExtend(p, p, x, d);
      assert CountBetter(p + [x], x, d) == CountBetter(p, x, d);
      assert CountEqual(p + [x], x) == CountEqual(p, x) + 1;
      CountsPartition(p, x, d);
      assert SumRanks(s, s, d) == SumRanks(p, s, d) + AverageRank(s, x, d);
    }
  }

  // ---------------------------------------------------------------------
  // Ranking one metric column
  // ---------------------------------------------------------------------

  /** The values of `col` that pass the filter, in column order. */
  function Survivors(col: seq<Option<real>>, f: Filter): (s: seq<real>)
    ensures |s| <= |col|
    decreases |col|
  {
    if col == [] then []
    else Survivors(col[..|col| - 1], f) + (if Passes(col[|col| - 1], f) then [col[|col| - 1].value] else [])
  }

  lemma {:induction false} SurvivorMember(col: seq<Option<real>>, f: Filter, i: nat)
    requires i < |col| && Passes(col[i], f)
    ensures col[i].value in Survivors(col, f)
    decreases |col|
  {
    if i < |col| - 1 {
      assert col[..|col| - 1][i] == col[i];
      SurvivorMember(col[..|col| - 1], f, i);
    }
  }

  /** The rank a cell receives among the survivors `s`, or none. */
  function RankOfValue(s: seq<real>, c: Option<real>, d: Direction, f: Filter): Option<real> {
    if Passes(c, f) then Some(AverageRank(s, c.value, d)) else None
  }

  /** `df[df[col] > 0][col].rank(...)` (or `df[col].rank(...)`), re-aligned
      to the whole column: cells that fail the filter carry no rank. */
  function RankColumn(col: seq<Option<real>>, d: Direction, f: Filter): (r: seq<Option<real>>)
    ensures |r| == |col|
    ensures forall i :: 0 <= i < |col| ==> (r[i].Some? <==> Passes(col[i], f))
    ensures forall i :: 0 <= i < |col| && Passes(col[i], f) ==>
              1.0 <= r[i].value <= |Survivors(col, f)| as real
  {
    var s := Survivors(col, f);
    forall i | 0 <= i < |col| && Passes(col[i], f)
      ensures 1.0 <= AverageRank(s, col[i].value, d) <= |s| as real
    {
      SurvivorMember(col, f, i);
      RankWithin(s, col[i].value, d);
    }
    seq(|col|, i requires 0 <= i < |col| => RankOfValue(s, col[i], d, f))
  }

  /** Within one column, ranks follow the direction exactly, and equal
      ranks mean equal values. */
  lemma RankColumnOrder(col: seq<Option<real>>, d: Direction, f: Filter, i: nat, j: nat)
    requires i < |col| && j < |col|
    requires Passes(col[i], f) && Passes(col[j], f)
    ensures RankColumn(col, d, f)[i].value < RankColumn(col, d, f)[j].value
            <==> Better(d, col[i].value, col[j].value)
    ensures RankColumn(col, d, f)[i].value == RankColumn(col, d, f)[j].value
            <==> col[i].value == col[j].value
  {
    SurvivorMember(col, f, i);
    SurvivorMember(col, f, j);
    RankOrderIff(Survivors(col, f), col[i].value, col[j].value, d);
  }

  /** Sum and count of the present cells of a row of ranks. */
  function SumPresent(r: seq<Option<real>>): real
    decreases |r|
  {
    if r == [] then 0.0
    else SumPresent(r[..|r| - 1]) + (if r[|r| - 1].Some? then r[|r| - 1].value else 0.0)
  }

  function CountPresent(r: seq<Option<real>>): nat
    decreases |r|
  {
    if r == [] then 0
    else CountPresent(r[..|r| - 1]) + (if r[|r| - 1].Some? then 1 else 0)
  }

  lemma {:induction false} RankAllSum(s: seq<real>, col: seq<Option<real>>, d: Direction, f: Filter)
    ensures SumPresent(seq(|col|, i requires 0 <= i < |col| => RankOfValue(s, col[i], d, f)))
         == SumRanks(Survivors(col, f), s, d)
    decreases |col|
  {
    var r := seq(|col|, i requires 0 <= i < |col| => RankOfValue(s, col[i], d, f));
    if col != [] {
      var p := col[..|col| - 1];
      var c := col[|col| - 1];
      var rp := seq(|p|, i requires 0 <= i < |p| => RankOfValue(s, p[i], d, f));
      assert r[..|r| - 1] == rp;
      RankAllSum(s, p, d, f);
      var sp := Survivors(p, f);
      assert SumPresent(r) == SumPresent(rp) + (if Passes(c, f) then AverageRank(s, c.value, d) else 0.0);
      if Passes(c, f) {
        assert Survivors(col, f) == sp + [c.value];
        assert (sp + [c.value])[..|sp + [c.value]| - 1] == sp;
        assert SumRanks(sp + [c.value], s, d) == SumRanks(sp, s, d) + AverageRank(s, c.value, d);
      } else {
        assert Survivors(col, f) == sp;
      }
    }
  }

  /** The ranks of one column add up to m(m+1)/2, m the number of cells
      passing the filter: the average-tie rule keeps the total of the
      positions 1..m. */
  lemma RankColumnSum(col: seq<Option<real>>, d: Direction, f: Filter)
    ensures SumPresent(RankColumn(col, d, f))
         == (|Survivors(col, f)| * (|Survivors(col, f)| + 1)) as real / 2.0
  {
    RankAllSum(Survivors(col, f), col, d, f);
    RankSum(Survivors(col, f), d);
  }

  // ---------------------------------------------------------------------
  // Composite rank: the mean of the rank columns an asset has
  // ---------------------------------------------------------------------

  lemma {:induction false} CountPresentZero(r: seq<Option<real>>)
    ensures CountPresent(r) == 0 <==> forall k :: 0 <= k < |r| ==> r[k].None?
    decreases |r|
  {
    if r != [] {
      CountPresentZero(r[..|r| - 1]);
      assert forall k :: 0 <= k < |r| - 1 ==> r[..|r| - 1][k] == r[k];
    }
  }

  /** `df[rank_columns].mean(axis=1)`: NaN cells are skipped, and a row
      with no present cell has a NaN mean. */
  function MeanPresent(r: seq<Option<real>>): (m: Option<real>)
    ensures m.None? <==> forall k :: 0 <= k < |r| ==> r[k].None?
  {
    CountPresentZero(r);
    if CountPresent(r) == 0 then None else Some(SumPresent(r) / CountPresent(r) as real)
  }

  /** `x` added to itself `n` times. */
  function Repeated(x: real, n: nat): real {
    if n == 0 then 0.0 else Repeated(x, n - 1) + x
  }

  lemma {:induction false} RepeatedIsProduct(x: real, n: nat)
    ensures Repeated(x, n) == x * n as real
  {
    if n > 0 {
      RepeatedIsProduct(x, n - 1);
      assert x * n as real == x * (n - 1) as real + x;
    }
  }

  lemma {:induction false} RepeatedWithin(r: seq<Option<real>>, lo: real, hi: real)
    requires forall k :: 0 <= k < |r| && r[k].Some? ==> lo <= r[k].value <= hi
    ensures Repeated(lo, CountPresent(r)) <= SumPresent(r) <= Repeated(hi, CountPresent(r))
    decreases |r|
  {
    if r != [] {
      var p := r[..|r| - 1];
      assert forall k :: 0 <= k < |p| ==> p[k] == r[k];
      RepeatedWithin(p, lo, hi);
    }
  }

  /** The composite lies between the smallest and largest bound of the
      ranks it averages. */
  lemma MeanWithin(r: seq<Option<real>>, lo: real, hi: real)
    requires forall k :: 0 <= k < |r| && r[k].Some? ==> lo <= r[k].value <= hi
    requires MeanPresent(r).Some?
    ensures lo <= MeanPresent(r).value <= hi
  {
    RepeatedWithin(r, lo, hi);
    CountPresentZero(r);
    QuotientWithin(SumPresent(r), CountPresent(r), lo, hi);
  }

  /** A sum of `n > 0` values within `[lo, hi]`, divided by `n`. */
  lemma QuotientWithin(sum: real, n: nat, lo: real, hi: real)
    requires n > 0 && Repeated(lo, n) <= sum <= Repeated(hi, n)
    ensures lo <= sum / n as real <= hi
  {
    RepeatedIsProduct(lo, n);
    RepeatedIsProduct(hi, n);
    var c := n as real;
    assert (sum / c) * c == sum;
  }

  // ---------------------------------------------------------------------
  // Metric tables and the ranking of a whole table
  // ---------------------------------------------------------------------

  /** One asset of a metric table: its ticker and its metric cells, in the
      family's column order. */
  datatype Row = Row(ticker: string, metrics: seq<Option<real>>)

  /** A metric table: `columns` are the positions of the metric columns the
      DataFrame actually has (a frame built from no rows has none, and a
      column no row provided is absent); cells of absent columns read as
      missing. */
  datatype Table = Table(width: nat, columns: set<nat>, rows: seq<Row>)

  ghost predicate WellFormed(t: Table) {
    && (forall c :: c in t.columns ==> c < t.width)
    && (forall i :: 0 <= i < |t.rows| ==> |t.rows[i].metrics| == t.width)
    && (forall i, c :: 0 <= i < |t.rows| && 0 <= c < |t.rows[i].metrics| && c !in t.columns
          ==> t.rows[i].metrics[c].None?)
  }

  /** The tickers of a table (the DataFrame's index, as a set). */
  function TickerSet(rows: seq<Row>): set<string>
    decreases |rows|
  {
    if rows == [] then {} else {rows[0].ticker} + TickerSet(rows[1..])
  }

  lemma {:induction false} TickerSetMember(rows: seq<Row>, k: string)
    ensures k in TickerSet(rows) <==> exists i :: 0 <= i < |rows| && rows[i].ticker == k
    decreases |rows|
  {
    if rows != [] {
      TickerSetMember(rows[1..], k);
      if k in TickerSet(rows[1..]) {
        var i :| 0 <= i < |rows[1..]| && rows[1..][i].ticker == k;
        assert rows[i + 1].ticker == k;
      }
      if exists i :: 0 <= i < |rows| && rows[i].ticker == k {
        var i :| 0 <= i < |rows| && rows[i].ticker == k;
        if i > 0 {
          assert rows[1..][i - 1].ticker == k;
        }
      }
    }
  }

  /** `metrics[ticker] = {...}` on the dict the builders fill: a ticker
      already present keeps its position and takes the new metrics; a new
      ticker is appended. */
  function Put(rows: seq<Row>, row: Row): (r: seq<Row>)
    ensures TickerSet(r) == TickerSet(rows) + {row.ticker}
    ensures row in r
    ensures forall x :: x in r ==> x == row || (x in rows && x.ticker != row.ticker)
    ensures forall x :: x in rows && x.ticker != row.ticker ==> x in r
    decreases |rows|
  {
    if rows == [] then [row]
    else if rows[0].ticker == row.ticker then
      var rest := PutRest(rows[1..], row);
      assert ([row] + rest)[1..] == rest;
      [row] + rest
    else
      var rest := Put(rows[1..], row);
      assert ([rows[0]] + rest)[1..] == rest;
      [rows[0]] + rest
  }

  /** Setting one ticker's entry keeps every other ticker's entry. */
  lemma PutKeeps(rows: seq<Row>, row: Row, x: Row)
    requires x in rows && x.ticker != row.ticker
    ensures x in Put(rows, row)
  {
  }

  /** In a dict a key occurs once: the entries after the replaced one carry
      other tickers. */
  function PutRest(rows: seq<Row>, row: Row): (r: seq<Row>)
    ensures TickerSet(r) == TickerSet(rows) - {row.ticker}
    ensures forall x :: x in r ==> x in rows && x.ticker != row.ticker
    ensures forall x :: x in rows && x.ticker != row.ticker ==> x in r
    decreases |rows|
  {
    if rows == [] then []
    else
      var rest := PutRest(rows[1..], row);
      if rows[0].ticker == row.ticker then rest
      else
        assert ([rows[0]] + rest)[1..] == rest;
        [rows[0]] + rest
  }

  function AllColumns(width: nat): (cs: set<nat>)
    ensures forall c: nat :: c in cs <==> c < width
  {
    if width == 0 then {} else AllColumns(width - 1) + {width - 1}
  }

  /** `pd.DataFrame.from_dict(metrics, orient='index')` over rows that all
      carry every metric key: the frame has every column, unless there are
      no rows, in which case it has no column at all. */
  function FromRows(width: nat, rows: seq<Row>): (t: Table)
    requires forall i :: 0 <= i < |rows| ==> |rows[i].metrics| == width
    ensures WellFormed(t) && t.width == width && t.rows == rows
  {
    Table(width, if rows == [] then {} else AllColumns(width), rows)
  }

  /** One rank column of a family: ranks `column` in `direction` among the
      cells passing `filter`. A spec with `onlyIfPresent` is ranked only
      when its column exists (`if col in df.columns`); any other spec reads
      its column unconditionally, which raises when it is absent. */
  datatype RankSpec = RankSpec(column: nat, direction: Direction, filter: Filter, onlyIfPresent: bool)

  /** The `KeyError` raised by reading an absent column. */
  datatype RankError = MissingColumn(column: nat)

  /** A row of the ranked table: the input row, its rank columns and its
      composite rank. */
  datatype RankedRow = RankedRow(row: Row, ranks: seq<Option<real>>, composite: Option<real>)

  ghost predicate SpecsFit(t: Table, specs: seq<RankSpec>) {
    forall j :: 0 <= j < |specs| ==> specs[j].column < t.width
  }

  function Column(rows: seq<Row>, c: nat): (col: seq<Option<real>>)
    requires forall i :: 0 <= i < |rows| ==> c < |rows[i].metrics|
    ensures |col| == |rows|
    ensures forall i :: 0 <= i < |rows| ==> col[i] == rows[i].metrics[c]
  {
    seq(|rows|, i requires 0 <= i < |rows| => rows[i].metrics[c])
  }

  /** The first required spec whose column is absent: the column the
      source raises `KeyError` on. */
  function FirstMissing(t: Table, specs: seq<RankSpec>): (m: Option<nat>)
    ensures m.None? <==> forall j :: 0 <= j < |specs| && !specs[j].onlyIfPresent ==> specs[j].column in t.columns
    ensures m.Some? ==> exists j :: 0 <= j < |specs| && !specs[j].onlyIfPresent && specs[j].column == m.value
                                    && m.value !in t.columns
  {
    if specs == [] then None
    else if !specs[0].onlyIfPresent && specs[0].column !in t.columns then Some(specs[0].column)
    else
      var m := FirstMissing(t, specs[1..]);
      assert forall j :: 1 <= j < |specs| ==> specs[1..][j - 1] == specs[j];
      m
  }

  /** The specs whose column exists, in order. */
  function ActiveSpecs(t: Table, specs: seq<RankSpec>): (a: seq<RankSpec>)
    ensures forall j :: 0 <= j < |a| ==> a[j] in specs && a[j].column in t.columns
    ensures forall j :: 0 <= j < |specs| && specs[j].column in t.columns ==> specs[j] in a
  {
    if specs == [] then []
    else
      var rest := ActiveSpecs(t, specs[1..]);
      assert forall j :: 1 <= j < |specs| ==> specs[j] == specs[1..][j - 1];
      (if specs[0].column in t.columns then [specs[0]] else []) + rest
  }

  lemma {:induction false} ActiveSpecsAppend(t: Table, a: seq<RankSpec>, b: seq<RankSpec>)
    ensures ActiveSpecs(t, a + b) == ActiveSpecs(t, a) + ActiveSpecs(t, b)
    decreases |a|
  {
    if a == [] {
      assert a + b == b;
    } else {
      assert (a + b)[1..] == a[1..] + b;
      ActiveSpecsAppend(t, a[1..], b);
    }
  }

  /** Specs whose columns all exist are all active; specs whose columns
      are all absent are all dropped. */
  lemma {:induction false} ActiveSpecsUniform(t: Table, specs: seq<RankSpec>)
    ensures (forall j :: 0 <= j < |specs| ==> specs[j].column in t.columns) ==> ActiveSpecs(t, specs) == specs
    ensures (forall j :: 0 <= j < |specs| ==> specs[j].column !in t.columns) ==> ActiveSpecs(t, specs) == []
  {
    if specs != [] {
      assert forall j :: 0 <= j < |specs[1..]| ==> specs[1..][j] == specs[j + 1];
      ActiveSpecsUniform(t, specs[1..]);
    }
  }

  /** When every spec is required and none is missing, every spec is
      ranked. */
  lemma AllRequiredActive(t: Table, specs: seq<RankSpec>)
    requires forall j :: 0 <= j < |specs| ==> !specs[j].onlyIfPresent
    requires FirstMissing(t, specs).None?
    ensures ActiveSpecs(t, specs) == specs
  {
    if specs != [] {
      assert forall j :: 0 <= j < |specs[1..]| ==> specs[1..][j] == specs[j + 1];
      AllRequiredActive(t, specs[1..]);
    }
  }

  /** The rank the table gives `row` under `spec`. */
  function RankOfSpec(t: Table, spec: RankSpec, row: Row): Option<real>
    requires WellFormed(t) && spec.column < t.width && |row.metrics| == t.width
  {
    RankOfValue(Survivors(Column(t.rows, spec.column), spec.filter),
                row.metrics[spec.column], spec.direction, spec.filter)
  }

  function RanksOf(t: Table, active: seq<RankSpec>, row: Row): (r: seq<Option<real>>)
    requires WellFormed(t) && SpecsFit(t, active) && |row.metrics| == t.width
    ensures |r| == |active|
  {
    seq(|active|, j requires 0 <= j < |active| => RankOfSpec(t, active[j], row))
  }

  /** The table with its rank columns and composite rank, before sorting. */
  function Annotate(t: Table, active: seq<RankSpec>): (a: seq<RankedRow>)
    requires WellFormed(t) && SpecsFit(t, active)
    ensures |a| == |t.rows|
  {
    seq(|t.rows|, i requires 0 <= i < |t.rows| =>
      RankedRow(t.rows[i], RanksOf(t, active, t.rows[i]), MeanPresent(RanksOf(t, active, t.rows[i]))))
  }

  function CompositeKey(x: RankedRow): Option<real> {
    x.composite
  }

  /** `out` is a valid result of ranking `t` by `active`: the annotated
      rows in some order sorted ascending by composite, missing last. */
  ghost predicate IsRanking(t: Table, active: seq<RankSpec>, out: seq<RankedRow>)
    requires WellFormed(t) && SpecsFit(t, active)
  {
    multiset(out) == multiset(Annotate(t, active)) && SortedBy(out, CompositeKey)
  }

  /** Appends one rank column to the working copy (`df.loc[idx, col] = s`). */
  function AddRankColumn(df: seq<RankedRow>, ranks: seq<Option<real>>): (r: seq<RankedRow>)
    requires |ranks| == |df|
    ensures |r| == |df|
    ensures forall i :: 0 <= i < |df| ==> r[i] == df[i].(ranks := df[i].ranks + [ranks[i]])
  {
    seq(|df|, i requires 0 <= i < |df| => df[i].(ranks := df[i].ranks + [ranks[i]]))
  }

  /** The rank columns of the family (the source's `rankings` dict), one
      per active spec, each aligned with the rows of `t`. */
  function RankingsOf(t: Table, active: seq<RankSpec>): (rs: seq<seq<Option<real>>>)
    requires WellFormed(t) && SpecsFit(t, active)
    ensures |rs| == |active|
    ensures forall j :: 0 <= j < |active| ==> |rs[j]| == |t.rows|
    ensures forall j, i :: 0 <= j < |active| && 0 <= i < |t.rows| ==>
              rs[j][i] == RankOfSpec(t, active[j], t.rows[i])
  {
    seq(|active|, j requires 0 <= j < |active| =>
      RankColumn(Column(t.rows, active[j].column), active[j].direction, active[j].filter))
  }

  lemma RanksOfPrefix(t: Table, active: seq<RankSpec>, j: nat, row: Row)
    requires WellFormed(t) && SpecsFit(t, active) && j < |active| && |row.metrics| == t.width
    ensures RanksOf(t, active[..j + 1], row) == RanksOf(t, active[..j], row) + [RankOfSpec(t, active[j], row)]
  {
  }

  /** Adding the `j`-th rank column extends every row's ranks by one. */
  lemma AddRankColumnStep(t: Table, active: seq<RankSpec>, rankings: seq<seq<Option<real>>>, j: nat,
                          df: seq<RankedRow>)
    requires WellFormed(t) && SpecsFit(t, active) && rankings == RankingsOf(t, active)
    requires j < |active| && |df| == |t.rows|
    requires forall i :: 0 <= i < |df| ==>
               df[i] == RankedRow(t.rows[i], RanksOf(t, active[..j], t.rows[i]), None)
    ensures forall i :: 0 <= i < |df| ==>
              AddRankColumn(df, rankings[j])[i] == RankedRow(t.rows[i], RanksOf(t, active[..j + 1], t.rows[i]), None)
  {
    forall i | 0 <= i < |df|
      ensures AddRankColumn(df, rankings[j])[i] == RankedRow(t.rows[i], RanksOf(t, active[..j + 1], t.rows[i]), None)
    {
      RanksOfPrefix(t, active, j, t.rows[i]);
    }
  }

  /** Sets each row's composite rank to the mean of its ranks. */
  function WithComposites(df: seq<RankedRow>): (r: seq<RankedRow>)
    ensures |r| == |df|
    ensures forall i :: 0 <= i < |df| ==> r[i] == df[i].(composite := MeanPresent(df[i].ranks))
  {
    seq(|df|, i requires 0 <= i < |df| => df[i].(composite := MeanPresent(df[i].ranks)))
  }

  lemma WithCompositesAnnotate(t: Table, active: seq<RankSpec>, df: seq<RankedRow>)
    requires WellFormed(t) && SpecsFit(t, active) && |df| == |t.rows|
    requires forall i :: 0 <= i < |df| ==> df[i] == RankedRow(t.rows[i], RanksOf(t, active, t.rows[i]), None)
    ensures WithComposites(df) == Annotate(t, active)
  {
  }

  lemma PrefixesFit(t: Table, active: seq<RankSpec>)
    requires SpecsFit(t, active)
    ensures forall j :: 0 <= j <= |active| ==> SpecsFit(t, active[..j])
  {
    forall j | 0 <= j <= |active| ensures SpecsFit(t, active[..j]) {
      assert forall k :: 0 <= k < j ==> active[..j][k] == active[k];
    }
  }

  /** Ranks a copy of `t` by `specs` and sorts it by composite rank. */
  method RankTable(t: Table, specs: seq<RankSpec>) returns (r: Result<seq<RankedRow>, RankError>)
    requires WellFormed(t) && SpecsFit(t, specs)
    ensures r.Failure? <==> FirstMissing(t, specs).Some?
    ensures r.Failure? ==> r.error == MissingColumn(FirstMissing(t, specs).value)
    ensures r.Success? ==> IsRanking(t, ActiveSpecs(t, specs), r.value)
  {
    var missing := FirstMissing(t, specs);
    if missing.Some? {
      return Failure(MissingColumn(missing.value));
    }
    var active := ActiveSpecs(t, specs);
    PrefixesFit(t, active);
    var rankings := RankingsOf(t, active);
    // the working copy: the input rows with no rank column yet
    var df := seq(|t.rows|, i requires 0 <= i < |t.rows| => RankedRow(t.rows[i], [], None));
    for j := 0 to |rankings|
      invariant |df| == |t.rows|
      invariant forall i :: 0 <= i < |df| ==>
                  df[i] == RankedRow(t.rows[i], RanksOf(t, active[..j], t.rows[i]), None)
    {
      AddRankColumnStep(t, active, rankings, j, df);
      df := AddRankColumn(df, rankings[j]);
    }
    assert active[..|rankings|] == active;
    WithCompositesAnnotate(t, active, df);
    r := Success(SortBy(WithComposites(df), CompositeKey));
  }

  // ---------------------------------------------------------------------
  // What a ranked table says about each asset
  // ---------------------------------------------------------------------

  lemma RankedRowOrigin(t: Table, active: seq<RankSpec>, out: seq<RankedRow>, x: RankedRow)
    returns (i: nat)
    requires WellFormed(t) && SpecsFit(t, active) && IsRanking(t, active, out)
    requires x in out
    ensures i < |t.rows| && x == Annotate(t, active)[i]
  {
    assert x in multiset(Annotate(t, active));
    var k :| 0 <= k < |Annotate(t, active)| && Annotate(t, active)[k] == x;
    i := k;
  }

  /** The ranked table holds exactly the input assets: one ranked row per
      input row. */
  lemma RankingKeepsAssets(t: Table, active: seq<RankSpec>, out: seq<RankedRow>)
    requires WellFormed(t) && SpecsFit(t, active) && IsRanking(t, active, out)
    ensures |out| == |t.rows|
    ensures forall x :: x in out ==> x.row in t.rows
    ensures forall row :: row in t.rows ==> exists x :: x in out && x.row == row
  {
    assert |out| == |multiset(out)| == |multiset(Annotate(t, active))| == |t.rows|;
    forall x | x in out ensures x.row in t.rows {
      var i := RankedRowOrigin(t, active, out, x);
    }
    forall row | row in t.rows ensures exists x :: x in out && x.row == row {
      var i :| 0 <= i < |t.rows| && t.rows[i] == row;
      var a := Annotate(t, active)[i];
      assert a in multiset(Annotate(t, active));
      assert a in out;
    }
  }

  /** An asset has a rank for a spec exactly when its cell passes the
      filter; each rank lies in [1, m] for the m cells passing; the
      composite is the mean of the ranks present, within [1, #assets], and
      is missing exactly when the asset has no rank at all. */
  lemma RankedRowFacts(t: Table, active: seq<RankSpec>, out: seq<RankedRow>, x: RankedRow)
    requires WellFormed(t) && SpecsFit(t, active) && IsRanking(t, active, out)
    requires x in out
    ensures x.row in t.rows && |x.ranks| == |active|
    ensures forall j :: 0 <= j < |active| ==>
              (x.ranks[j].Some? <==> Passes(x.row.metrics[active[j].column], active[j].filter))
    ensures forall j :: 0 <= j < |active| && x.ranks[j].Some? ==>
              1.0 <= x.ranks[j].value <= |Survivors(Column(t.rows, active[j].column), active[j].filter)| as real
    ensures x.composite == MeanPresent(x.ranks)
    ensures x.composite.None? <==> forall j :: 0 <= j < |active| ==> x.ranks[j].None?
    ensures x.composite.Some? ==> 1.0 <= x.composite.value <= |t.rows| as real
  {
    var i := RankedRowOrigin(t, active, out, x);
    forall j | 0 <= j < |active| && x.ranks[j].Some?
      ensures 1.0 <= x.ranks[j].value <= |Survivors(Column(t.rows, active[j].column), active[j].filter)| as real
    {
      var col := Column(t.rows, active[j].column);
      assert col[i] == x.row.metrics[active[j].column];
      assert RankColumn(col, active[j].direction, active[j].filter)[i] == x.ranks[j];
    }
    if x.composite.Some? {
      MeanWithin(x.ranks, 1.0, |t.rows| as real);
    }
  }

  /** Two assets' ranks for one spec compare exactly as their metric values
      do under the spec's direction. */
  lemma RankedPairOrder(t: Table, active: seq<RankSpec>, out: seq<RankedRow>,
                        x: RankedRow, y: RankedRow, j: nat)
    requires WellFormed(t) && SpecsFit(t, active) && IsRanking(t, active, out)
    requires x in out && y in out && j < |active|
    requires |x.row.metrics| == t.width && |y.row.metrics| == t.width
    requires |x.ranks| == |active| && |y.ranks| == |active|
    requires Passes(x.row.metrics[active[j].column], active[j].filter)
    requires Passes(y.row.metrics[active[j].column], active[j].filter)
    ensures x.ranks[j].Some? && y.ranks[j].Some?
    ensures x.ranks[j].value < y.ranks[j].value
            <==> Better(active[j].direction, x.row.metrics[active[j].column].value,
                        y.row.metrics[active[j].column].value)
    ensures x.ranks[j].value == y.ranks[j].value
            <==> x.row.metrics[active[j].column].value == y.row.metrics[active[j].column].value
  {
    var ix := RankedRowOrigin(t, active, out, x);
    var iy := RankedRowOrigin(t, active, out, y);
    var col := Column(t.rows, active[j].column);
    assert RankColumn(col, active[j].direction, active[j].filter)[ix] == x.ranks[j];
    assert RankColumn(col, active[j].direction, active[j].filter)[iy] == y.ranks[j];
    RankColumnOrder(col, active[j].direction, active[j].filter, ix, iy);
  }

  lemma RankedRowShape(t: Table, active: seq<RankSpec>, out: seq<RankedRow>, x: RankedRow)
    requires WellFormed(t) && SpecsFit(t, active) && IsRanking(t, active, out)
    requires x in out
    ensures |x.ranks| == |active| && |x.row.metrics| == t.width
  {
    var i := RankedRowOrigin(t, active, out, x);
  }

  /** One rank column seen from two ranked assets: each has a rank exactly
      when its cell passes the filter, and when both do, their ranks compare
      as their values do. */
  lemma RankedPairAt(t: Table, active: seq<RankSpec>, out: seq<RankedRow>,
                     x: RankedRow, y: RankedRow, j: nat)
    requires WellFormed(t) && SpecsFit(t, active) && IsRanking(t, active, out)
    requires x in out && y in out && j < |active|
    ensures |x.ranks| == |active| && |y.ranks| == |active|
    ensures |x.row.metrics| == t.width && |y.row.metrics| == t.width
    ensures x.ranks[j].Some? <==> Passes(x.row.metrics[active[j].column], active[j].filter)
    ensures y.ranks[j].Some? <==> Passes(y.row.metrics[active[j].column], active[j].filter)
    ensures x.ranks[j].Some? && y.ranks[j].Some? ==>
              (x.ranks[j].value < y.ranks[j].value
               <==> Better(active[j].direction, x.row.metrics[active[j].column].value,
                           y.row.metrics[active[j].column].value))
              && (x.ranks[j].value == y.ranks[j].value
                  <==> x.row.metrics[active[j].column].value == y.row.metrics[active[j].column].value)
  {
    RankedRowFacts(t, active, out, x);
    RankedRowFacts(t, active, out, y);
    if x.ranks[j].Some? && y.ranks[j].Some? {
      RankedPairOrder(t, active, out, x, y, j);
    }
  }

  /** An asset with every metric missing gets no rank and no composite, and
      so sorts after every asset that has one. */
  lemma AllMissingUnranked(t: Table, active: seq<RankSpec>, out: seq<RankedRow>, x: RankedRow)
    requires WellFormed(t) && SpecsFit(t, active) && IsRanking(t, active, out)
    requires x in out && |x.ranks| == |active|
    requires forall c :: 0 <= c < |x.row.metrics| ==> x.row.metrics[c].None?
    ensures forall j :: 0 <= j < |active| ==> x.ranks[j].None?
    ensures x.composite.None?
    ensures forall k, y :: 0 <= k < |out| && out[k] == x && y in out[k..] ==> y.composite.None?
  {
    RankedRowFacts(t, active, out, x);
    forall k, y | 0 <= k < |out| && out[k] == x && y in out[k..] ensures y.composite.None? {
      var m :| k <= m < |out| && out[m] == y;
      assert KeyLe(CompositeKey(out[k]), CompositeKey(out[m])) || k == m;
    }
  }
}
