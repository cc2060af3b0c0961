/**
 * The weighted composite column: `sum(rank * weight)` accumulated family by
 * family with `+=`, where a missing (NaN) rank makes the sum missing, and
 * the bounds that hold when the weights are non-negative and sum to one.
 */
module WeightedSums {
  import opened Common

  /** One step of `combined['Weighted Composite Rank'] += rank * weight`;
      a missing operand makes the sum missing. */
  function AddTerm(acc: Option<real>, rank: Option<real>, weight: real): (r: Option<real>)
    ensures r.Some? <==> acc.Some? && rank.Some?
    ensures r.Some? ==> r.value == acc.value + rank.value * weight
  {
    if acc.Some? && rank.Some? then Some(acc.value + rank.value * weight) else None
  }

  /** `sum(rank * weight)` accumulated term by term from 0, as the
      `+=` loop does; a missing rank makes the sum missing. */
  function WeightedSum(ranks: seq<Option<real>>, ws: seq<real>): Option<real>
    requires |ranks| == |ws|
    decreases |ranks|
  {
    if ranks == [] then Some(0.0)
    else
      var n := |ranks| - 1;
      AddTerm(WeightedSum(ranks[..n], ws[..n]), ranks[n], ws[n])
  }

  /** Extending the summed prefix by one family adds that family's term. */
  lemma WeightedSumExtend(ranks: seq<Option<real>>, ws: seq<real>, f: nat)
    requires f < |ranks| == |ws|
    ensures WeightedSum(ranks[..f + 1], ws[..f + 1]) == AddTerm(WeightedSum(ranks[..f], ws[..f]), ranks[f], ws[f])
  {
    assert ranks[..f + 1][..f] == ranks[..f] && ws[..f + 1][..f] == ws[..f];
  }

  /** A weighted sum is missing iff one of its ranks is. */
  lemma {:induction false} WeightedSumMissingIff(ranks: seq<Option<real>>, ws: seq<real>)
    requires |ranks| == |ws|
    ensures WeightedSum(ranks, ws).None? <==> exists f :: 0 <= f < |ranks| && ranks[f].None?
    decreases |ranks|
  {
    if ranks != [] {
      var n := |ranks| - 1;
      WeightedSumMissingIff(ranks[..n], ws[..n]);
      assert forall f :: 0 <= f < n ==> ranks[..n][f] == ranks[f];
    }
  }

  /** The terms `rank * weight` of paired sequences. */
  function Products(ranks: seq<real>, ws: seq<real>): (ps: seq<real>)
    requires |ranks| == |ws|
    ensures |ps| == |ranks|
    ensures forall i :: 0 <= i < |ranks| ==> ps[i] == ranks[i] * ws[i]
  {
    seq(|ranks|, i requires 0 <= i < |ranks| => ranks[i] * ws[i])
  }

  /** Every value multiplied by `c`. */
  function ScaledBy(c: real, ws: seq<real>): (ps: seq<real>)
    ensures |ps| == |ws|
    ensures forall i :: 0 <= i < |ws| ==> ps[i] == c * ws[i]
  {
    seq(|ws|, i requires 0 <= i < |ws| => c * ws[i])
  }

  lemma {:induction false} SumMonotone(a: seq<real>, b: seq<real>)
    requires |a| == |b|
    requires forall i :: 0 <= i < |a| ==> a[i] <= b[i]
    ensures Sum(a) <= Sum(b)
    decreases |a|
  {
    if a != [] {
      var n := |a| - 1;
      SumMonotone(a[..n], b[..n]);
    }
  }

  lemma Distribute(c: real, x: real, y: real, z: real)
    requires z == x + y
    ensures c * z == c * x + c * y
  {
  }

  lemma {:induction false} SumScaled(c: real, ws: seq<real>)
    ensures Sum(ScaledBy(c, ws)) == c * Sum(ws)
    decreases |ws|
  {
    if ws != [] {
      var n := |ws| - 1;
      SumScaled(c, ws[..n]);
      var ps, pp := ScaledBy(c, ws), ScaledBy(c, ws[..n]);
      assert forall i :: 0 <= i < n ==> ps[i] == pp[i];
      assert ps[..n] == pp;
      Distribute(c, Sum(ws[..n]), ws[n], Sum(ws));
    }
  }

  lemma MulBetween(rank: real, weight: real, lo: real, hi: real)
    requires lo <= rank <= hi && weight >= 0.0
    ensures lo * weight <= rank * weight <= hi * weight
  {
  }

  lemma TermsBetween(ranks: seq<real>, ws: seq<real>, lo: real, hi: real)
    requires |ranks| == |ws|
    requires forall i :: 0 <= i < |ranks| ==> lo <= ranks[i] <= hi && ws[i] >= 0.0
    ensures forall i :: 0 <= i < |ranks| ==> ScaledBy(lo, ws)[i] <= Products(ranks, ws)[i] <= ScaledBy(hi, ws)[i]
  {
    var ps, los, his := Products(ranks, ws), ScaledBy(lo, ws), ScaledBy(hi, ws);
    forall i | 0 <= i < |ranks| ensures los[i] <= ps[i] <= his[i] {
      MulBetween(ranks[i], ws[i], lo, hi);
    }
  }

  /** A non-negatively weighted sum of values within `[lo, hi]` lies within
      `lo` and `hi` times the total weight. */
  lemma DotBetween(ranks: seq<real>, ws: seq<real>, lo: real, hi: real)
    requires |ranks| == |ws|
    requires forall i :: 0 <= i < |ranks| ==> lo <= ranks[i] <= hi && ws[i] >= 0.0
    ensures lo * Sum(ws) <= Sum(Products(ranks, ws)) <= hi * Sum(ws)
  {
    var ps, los, his := Products(ranks, ws), ScaledBy(lo, ws), ScaledBy(hi, ws);
    TermsBetween(ranks, ws, lo, hi);
    SumMonotone(los, ps);
    SumMonotone(ps, his);
    SumScaled(lo, ws);
    SumScaled(hi, ws);
  }

  /** When every rank is present, the weighted sum is the sum of the
      products of the ranks and the weights. */
  lemma {:induction false} WeightedSumIsDot(ranks: seq<Option<real>>, ws: seq<real>, values: seq<real>)
    requires |ranks| == |ws| == |values|
    requires forall f :: 0 <= f < |ranks| ==> ranks[f] == Some(values[f])
    ensures WeightedSum(ranks, ws) == Some(Sum(Products(values, ws)))
    decreases |ranks|
  {
    if ranks != [] {
      var n := |ranks| - 1;
      WeightedSumIsDot(ranks[..n], ws[..n], values[..n]);
      var ps, pp := Products(values, ws), Products(values[..n], ws[..n]);
      assert forall i :: 0 <= i < n ==> ps[i] == pp[i];
      assert ps[..n] == pp;
      assert forall f :: 0 <= f < n ==> ranks[..n][f] == Some(values[..n][f]);
      var acc, v, x := Sum(ps[..n]), values[n], ws[n];
      var r := AddTerm(Some(acc), Some(v), x);
      assert WeightedSum(ranks, ws) == r && r.value == acc + v * x;
      assert Sum(ps) == acc + ps[n] && ps[n] == v * x;
      assert r == Some(Sum(ps));
    }
  }

  /** With non-negative weights summing to one, a weighted sum of ranks
      within `[lo, hi]` lies within `[lo, hi]`. */
  lemma WeightedSumWithin(ranks: seq<Option<real>>, ws: seq<real>, lo: real, hi: real)
    requires |ranks| == |ws|
    requires forall f :: 0 <= f < |ws| ==> ws[f] >= 0.0
    requires Sum(ws) == 1.0
    requires forall f :: 0 <= f < |ranks| ==> ranks[f].Some? && lo <= ranks[f].value <= hi
    ensures WeightedSum(ranks, ws).Some?
    ensures lo <= WeightedSum(ranks, ws).value <= hi
  {
    var values := seq(|ranks|, f requires 0 <= f < |ranks| => ranks[f].value);
    WeightedSumIsDot(ranks, ws, values);
    DotBetween(values, ws, lo, hi);
  }

  lemma WeightedSumTwo(a: real, b: real, x: real, y: real)
    ensures WeightedSum([Some(a), Some(b)], [x, y]) == Some(a * x + b * y)
  {
    var rs, ws := [Some(a), Some(b)], [x, y];
    assert rs[..1] == [Some(a)] && rs[..1][..0] == [] && ws[..1] == [x] && ws[..1][..0] == [];
    var first := AddTerm(Some(0.0), Some(a), x);
    assert WeightedSum(rs[..1], ws[..1]) == first && first.value == a * x;
    var both := AddTerm(first, Some(b), y);
    assert WeightedSum(rs, ws) == both && both.value == a * x + b * y;
  }

}
