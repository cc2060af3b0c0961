/**
 * The daily returns `create_multi_factor_portfolio` feeds to the optimiser:
 * `price_data[top_stocks].pct_change().dropna()`.
 *
 * `pct_change` pads missing prices forward before dividing (its default
 * `fill_method='pad'`), so a gap in a price series yields a zero return,
 * while a series that has not started yet yields missing returns. `dropna`
 * then keeps only the dates on which every selected stock has a return;
 * the first date never has one.
 */
module PriceReturns {
  import opened Common
  import opened Matrices

  /** `price_data`: adjusted closing prices, one row per date and one
      column per ticker; a NaN price is `None`. */
  datatype PriceFrame = PriceFrame(tickers: seq<string>, rows: seq<seq<Option<real>>>)

  /** A frame whose column labels are unique and whose every row has one
      price per column. */
  predicate ValidFrame(f: PriceFrame) {
    Distinct(f.tickers) && forall d :: 0 <= d < |f.rows| ==> |f.rows[d]| == |f.tickers|
  }

  /** A table of optional values with `n` entries in every row. */
  predicate Shaped(rows: seq<seq<Option<real>>>, n: nat) {
    forall d :: 0 <= d < |rows| ==> |rows[d]| == n
  }

  /** The wanted tickers that have no column, in the order wanted. */
  function Missing(wanted: seq<string>, have: seq<string>): (m: seq<string>)
    ensures forall t :: t in m <==> t in wanted && t !in have
  {
    if wanted == [] then []
    else (if wanted[0] in have then [] else [wanted[0]]) + Missing(wanted[1..], have)
  }

  /** The position of `t` among the column labels. */
  function IndexOf(ts: seq<string>, t: string): (i: nat)
    requires t in ts
    ensures i < |ts| && ts[i] == t
  {
    if ts[0] == t then 0 else 1 + IndexOf(ts[1..], t)
  }

  /** `price_data[top]`: the columns of `top`, in that order. A ticker
      without a column makes pandas raise `KeyError`, which names the
      missing tickers. */
  function SelectColumns(f: PriceFrame, top: seq<string>): (r: Result<seq<seq<Option<real>>>, seq<string>>)
    requires ValidFrame(f)
    ensures r.Failure? <==> exists t :: t in top && t !in f.tickers
    ensures r.Failure? ==> r.error != [] && forall t :: t in r.error <==> t in top && t !in f.tickers
    ensures r.Success? ==> |r.value| == |f.rows| && Shaped(r.value, |top|)
    ensures r.Success? ==>
              forall d, j, k :: 0 <= d < |f.rows| && 0 <= j < |top| && 0 <= k < |f.tickers| && f.tickers[k] == top[j] ==>
                r.value[d][j] == f.rows[d][k]
  {
    var missing := Missing(top, f.tickers);
    if missing != [] then
      assert missing[0] in missing;
      Failure(missing)
    else
      assert forall j :: 0 <= j < |top| ==> top[j] in f.tickers by {
        forall j | 0 <= j < |top| ensures top[j] in f.tickers {
          assert top[j] !in missing;
        }
      }
      var cols := seq(|top|, j requires 0 <= j < |top| => IndexOf(f.tickers, top[j]));
      Success(seq(|f.rows|, d requires 0 <= d < |f.rows| => seq(|top|, j requires 0 <= j < |top| => f.rows[d][cols[j]])))
  }

  /** Column `j` of a table of optional values. */
  function OptionColumn(rows: seq<seq<Option<real>>>, n: nat, j: nat): (c: seq<Option<real>>)
    requires Shaped(rows, n) && j < n
    ensures |c| == |rows| && forall d :: 0 <= d < |rows| ==> c[d] == rows[d][j]
  {
    seq(|rows|, d requires 0 <= d < |rows| => rows[d][j])
  }

  /** The forward-filled price on date `d` (`fillna(method='pad')`). */
  function Padded(col: seq<Option<real>>, d: nat): Option<real>
    requires d < |col|
  {
    if col[d].Some? || d == 0 then col[d] else Padded(col, d - 1)
  }

  /** The padded price is the latest price at or before `d`, and is
      missing exactly when no price has appeared yet. */
  lemma {:induction false} PaddedIsLatest(col: seq<Option<real>>, d: nat)
    requires d < |col|
    ensures Padded(col, d).None? <==> forall s :: 0 <= s <= d ==> col[s].None?
    ensures Padded(col, d).Some? ==>
              exists s :: 0 <= s <= d && col[s] == Padded(col, d) && forall u :: s < u <= d ==> col[u].None?
  {
    if col[d].None? && d > 0 {
      PaddedIsLatest(col, d - 1);
      if Padded(col, d).Some? {
        var s :| 0 <= s <= d - 1 && col[s] == Padded(col, d - 1) && forall u :: s < u <= d - 1 ==> col[u].None?;
        assert forall u :: s < u <= d ==> col[u].None?;
      }
    }
  }

  /** `pct_change()` of one column on date `d`: the padded price over the
      previous padded price, minus one; NaN on the first date and wherever
      either padded price is missing. */
  function Change(col: seq<Option<real>>, d: nat): Option<real>
    requires d < |col|
  {
    if d == 0 then None
    else
      var cur, prev := Padded(col, d), Padded(col, d - 1);
      if cur.Some? && prev.Some? && prev.value != 0.0 then Some(cur.value / prev.value - 1.0) else None
  }

  lemma CompoundStep(r: real, cur: real, prev: real)
    requires prev != 0.0 && r == cur / prev - 1.0
    ensures (1.0 + r) * prev == cur
  {
  }

  /** A return compounds the previous padded price into the current one. */
  lemma ChangeCompounds(col: seq<Option<real>>, d: nat, r: real)
    requires d < |col| && Change(col, d) == Some(r)
    ensures d > 0 && Padded(col, d).Some? && Padded(col, d - 1).Some?
    ensures (1.0 + r) * Padded(col, d - 1).value == Padded(col, d).value
  {
    CompoundStep(r, Padded(col, d).value, Padded(col, d - 1).value);
  }

  /** Between two present prices, the return is their plain ratio minus
      one. */
  lemma ChangeOfPresent(col: seq<Option<real>>, d: nat)
    requires 0 < d < |col| && col[d].Some? && col[d - 1].Some? && col[d - 1].value != 0.0
    ensures Change(col, d) == Some(col[d].value / col[d - 1].value - 1.0)
  {
  }

  /** `pct_change()` of a whole table, column by column. */
  function PctChange(rows: seq<seq<Option<real>>>, n: nat): (r: seq<seq<Option<real>>>)
    requires Shaped(rows, n)
    ensures |r| == |rows| && Shaped(r, n)
    ensures forall d, j :: 0 <= d < |rows| && 0 <= j < n ==> r[d][j] == Change(OptionColumn(rows, n, j), d)
  {
    seq(|rows|, d requires 0 <= d < |rows| => seq(n, j requires 0 <= j < n => Change(OptionColumn(rows, n, j), d)))
  }

  /** A row without a missing value. */
  predicate Complete(row: seq<Option<real>>) {
    forall j :: 0 <= j < |row| ==> row[j].Some?
  }

  /** The numbers of a complete row. */
  function Values(row: seq<Option<real>>): (v: seq<real>)
    requires Complete(row)
    ensures |v| == |row| && forall j :: 0 <= j < |row| ==> row[j] == Some(v[j])
  {
    seq(|row|, j requires 0 <= j < |row| => row[j].value)
  }

  /** The dates before `m` that `dropna()` keeps. */
  function KeptBefore(rows: seq<seq<Option<real>>>, m: nat): (ds: seq<nat>)
    requires m <= |rows|
    ensures forall k :: 0 <= k < |ds| ==> ds[k] < m && Complete(rows[ds[k]])
  {
    if m == 0 then []
    else KeptBefore(rows, m - 1) + (if Complete(rows[m - 1]) then [m - 1] else [])
  }

  /** `dropna()` keeps every complete date, each once, in increasing
      order. */
  lemma {:induction false} KeptBeforeExactly(rows: seq<seq<Option<real>>>, m: nat)
    requires m <= |rows|
    ensures forall d :: 0 <= d < m && Complete(rows[d]) ==> d in KeptBefore(rows, m)
    ensures forall k, l :: 0 <= k < l < |KeptBefore(rows, m)| ==> KeptBefore(rows, m)[k] < KeptBefore(rows, m)[l]
  {
    if m > 0 {
      KeptBeforeExactly(rows, m - 1);
    }
  }

  /** `dropna()`: the complete rows, in their order, as plain numbers. */
  function DropMissing(rows: seq<seq<Option<real>>>, n: nat): (out: seq<seq<real>>)
    requires Shaped(rows, n)
    ensures Rectangular(out, n)
    ensures |out| == |KeptBefore(rows, |rows|)|
    ensures forall k :: 0 <= k < |out| ==> out[k] == Values(rows[KeptBefore(rows, |rows|)[k]])
  {
    var ds := KeptBefore(rows, |rows|);
    seq(|ds|, k requires 0 <= k < |ds| => Values(rows[ds[k]]))
  }

  /** `price_data[top].pct_change().dropna()`. */
  function DailyReturnTable(f: PriceFrame, top: seq<string>): (r: Result<seq<seq<real>>, seq<string>>)
    requires ValidFrame(f)
    ensures r.Failure? <==> exists t :: t in top && t !in f.tickers
    ensures r.Success? ==> Rectangular(r.value, |top|) && |r.value| <= |f.rows|
  {
    var selected := SelectColumns(f, top);
    if selected.Failure? then Failure(selected.error)
    else
      var out := DropMissing(PctChange(selected.value, |top|), |top|);
      assert |KeptBefore(PctChange(selected.value, |top|), |f.rows|)| <= |f.rows| by {
        ReturnDatesBounded(PctChange(selected.value, |top|), |f.rows|);
      }
      Success(out)
  }

  /** Strictly increasing dates below `m` number at most `m`. */
  lemma {:induction false} ReturnDatesBounded(rows: seq<seq<Option<real>>>, m: nat)
    requires m <= |rows|
    ensures |KeptBefore(rows, m)| <= m
  {
    if m > 0 {
      ReturnDatesBounded(rows, m - 1);
    }
  }

  /** With at least one stock, the first date is always dropped: it has
      no previous price to compare with. */
  lemma FirstDateDropped(rows: seq<seq<Option<real>>>, n: nat)
    requires Shaped(rows, n) && n > 0
    ensures forall k :: 0 <= k < |KeptBefore(PctChange(rows, n), |rows|)| ==> KeptBefore(PctChange(rows, n), |rows|)[k] > 0
  {
    var r := PctChange(rows, n);
    var ds := KeptBefore(r, |rows|);
    forall k | 0 <= k < |ds| ensures ds[k] > 0 {
      assert Complete(r[ds[k]]);
      assert r[ds[k]][0].Some?;
    }
  }

  /** A date is kept exactly when every selected stock has a return on
      it. */
  lemma KeptIffAllReturns(rows: seq<seq<Option<real>>>, n: nat, d: nat)
    requires Shaped(rows, n) && d < |rows|
    ensures d in KeptBefore(PctChange(rows, n), |rows|)
            <==> forall j :: 0 <= j < n ==> Change(OptionColumn(rows, n, j), d).Some?
  {
    var r := PctChange(rows, n);
    var ds := KeptBefore(r, |rows|);
    KeptBeforeExactly(r, |rows|);
    if d in ds {
      var k :| 0 <= k < |ds| && ds[k] == d;
      assert Complete(r[d]);
    }
  }

  /** Row `k` of the returns holds the returns of the kept date `d`, so
      (by `ChangeCompounds`) each of them compounds the stock's previous
      padded price into its current one. */
  lemma KeptReturn(rows: seq<seq<Option<real>>>, n: nat, k: nat, d: nat, j: nat)
    requires Shaped(rows, n) && j < n
    requires k < |KeptBefore(PctChange(rows, n), |rows|)| && d == KeptBefore(PctChange(rows, n), |rows|)[k]
    ensures d < |rows| && PctChange(rows, n)[d][j] == Some(DropMissing(PctChange(rows, n), n)[k][j])
  {
  }

  /** A frame with every price present and non-zero loses only its first
      date. */
  lemma FullPricesKeepAllButFirst(rows: seq<seq<Option<real>>>, n: nat)
    requires Shaped(rows, n) && n > 0 && |rows| > 0
    requires forall d, j :: 0 <= d < |rows| && 0 <= j < n ==> rows[d][j].Some? && rows[d][j].value != 0.0
    ensures |KeptBefore(PctChange(rows, n), |rows|)| == |rows| - 1
    ensures forall k :: 0 <= k < |rows| - 1 ==> KeptBefore(PctChange(rows, n), |rows|)[k] == k + 1
  {
    var r := PctChange(rows, n);
    forall d | 0 < d < |rows| ensures Complete(r[d]) {
      forall j | 0 <= j < n ensures r[d][j].Some? {
        ChangeOfPresent(OptionColumn(rows, n, j), d);
      }
    }
    assert !Complete(r[0]) by {
      assert r[0][0].None?;
    }
    KeptAfterFirst(r, |rows|);
  }

  /** ... and its returns are `p[d] / p[d - 1] - 1` for every later date. */
  lemma FullPricesReturns(rows: seq<seq<Option<real>>>, n: nat, k: nat, j: nat)
    requires Shaped(rows, n) && n > 0 && |rows| > 0
    requires forall d, j :: 0 <= d < |rows| && 0 <= j < n ==> rows[d][j].Some? && rows[d][j].value != 0.0
    requires k < |rows| - 1 && j < n
    ensures |DropMissing(PctChange(rows, n), n)| == |rows| - 1
    ensures DropMissing(PctChange(rows, n), n)[k][j] == rows[k + 1][j].value / rows[k][j].value - 1.0
  {
    var r := PctChange(rows, n);
    FullPricesKeepAllButFirst(rows, n);
    assert KeptBefore(r, |rows|)[k] == k + 1;
    ChangeOfPresent(OptionColumn(rows, n, j), k + 1);
  }

  /** When every date but the first is complete and the first is not,
      exactly the later dates are kept. */
  lemma {:induction false} KeptAfterFirst(rows: seq<seq<Option<real>>>, m: nat)
    requires 0 < m <= |rows| && !Complete(rows[0])
    requires forall d :: 0 < d < m ==> Complete(rows[d])
    ensures |KeptBefore(rows, m)| == m - 1
    ensures forall k :: 0 <= k < m - 1 ==> KeptBefore(rows, m)[k] == k + 1
  {
    if m > 1 {
      KeptAfterFirst(rows, m - 1);
      assert Complete(rows[m - 1]);
      assert KeptBefore(rows, m) == KeptBefore(rows, m - 1) + [m - 1];
    }
  }
}
