/**
 * `combine_factor_rankings`: merges the composite ranks of several factor
 * families into one weighted score per ticker. Weights are normalised by
 * their total; the tickers are the union over all families; a ticker
 * without a family's composite takes that family's median composite; the
 * table is sorted ascending by the weighted score. Only a `value` table
 * with a `'Composite Value Rank'` column and a `momentum` table with a
 * `'Composite Momentum Rank'` column produce a rank column.
 */
module Combiner {
  import opened Common
  import opened Medians
  import opened WeightedSums

  /** Each ticker of a ranked table's index with its cell in the family's
      composite column (missing when the asset was ranked on nothing). */
  type Composites = seq<(string, Option<real>)>

  /** A family's ranked table as the combiner reads it: the columns the
      frame has, and its composite column over its index. */
  datatype FamilyRanking = FamilyRanking(columns: set<string>, composites: Composites)

  /** The `rankings` dict: family name to ranked table, in insertion order. */
  type Rankings = seq<(string, FamilyRanking)>

  /** The weights dict: family name to weight, in insertion order. */
  type Weights = seq<(string, real)>

  /** A dict has distinct keys, and a ranked table distinct tickers. */
  predicate ValidRankings(rankings: Rankings) {
    Distinct(Keys(rankings)) && forall f :: 0 <= f < |rankings| ==> Distinct(Keys(rankings[f].1.composites))
  }

  predicate ValidWeights(weights: Option<Weights>) {
    weights.Some? ==> Distinct(Keys(weights.value))
  }

  /** The combiner copies a family's composite into a `<family>_rank`
      column only for the `value` family with a `'Composite Value Rank'`
      column and the `momentum` family with a `'Composite Momentum Rank'`
      column. */
  predicate HasRankColumn(name: string, family: FamilyRanking) {
    || (name == "value" && "Composite Value Rank" in family.columns)
    || (name == "momentum" && "Composite Momentum Rank" in family.columns)
  }

  /** Family `p` can be weighed: it has a rank column and a weight. */
  predicate Weighable(p: (string, FamilyRanking), w: Weights) {
    HasRankColumn(p.0, p.1) && Lookup(w, p.0).Some?
  }

  datatype CombineError =
    | NoRankings                   // ValueError: no rankings provided
    | ZeroTotalWeight              // ZeroDivisionError while normalising
    | MissingRankColumn(family: string)  // KeyError on f'{family}_rank'
    | MissingWeight(family: string)      // KeyError on weights[family]

  /** One row of the combined table: the ticker, its (filled) rank in each
      family, in family order, and the weighted composite. */
  datatype CombinedRow = CombinedRow(ticker: string, ranks: seq<Option<real>>, score: Option<real>)

  // ---------------------------------------------------------------------
  // Weights
  // ---------------------------------------------------------------------

  function SumValues(w: Weights): real
    decreases |w|
  {
    if w == [] then 0.0 else SumValues(w[..|w| - 1]) + w[|w| - 1].1
  }

  /** Equal weights `1/k` for the k families. */
  function DefaultWeights(rankings: Rankings): (w: Weights)
    requires rankings != []
    ensures |w| == |rankings|
    ensures forall f :: 0 <= f < |w| ==> w[f] == (rankings[f].0, 1.0 / |rankings| as real)
  {
    seq(|rankings|, f requires 0 <= f < |rankings| => (rankings[f].0, 1.0 / |rankings| as real))
  }

  /** Every weight divided by `total`. */
  function Normalize(w: Weights, total: real): (r: Weights)
    requires total != 0.0 || w == []
    ensures |r| == |w|
    ensures forall f :: 0 <= f < |w| ==> r[f] == (w[f].0, w[f].1 / total)
  {
    if w == [] then [] else seq(|w|, f requires 0 <= f < |w| => (w[f].0, w[f].1 / total))
  }

  /** The weights given, or the default ones. */
  function RawWeights(rankings: Rankings, weights: Option<Weights>): Weights
    requires rankings != []
  {
    if weights.None? then DefaultWeights(rankings) else weights.value
  }

  /** The weights after normalisation, when normalisation does not
      divide by zero. */
  function NormalizedWeights(rankings: Rankings, weights: Option<Weights>): Weights
    requires rankings != []
    requires var w := RawWeights(rankings, weights); w == [] || SumValues(w) != 0.0
  {
    var w := RawWeights(rankings, weights);
    Normalize(w, SumValues(w))
  }

  lemma {:induction false} SumValuesNormalize(w: Weights, total: real)
    requires total != 0.0
    ensures SumValues(Normalize(w, total)) == SumValues(w) / total
    decreases |w|
  {
    if w != [] {
      var p := w[..|w| - 1];
      SumValuesNormalize(p, total);
      assert Normalize(w, total)[..|w| - 1] == Normalize(p, total);
    }
  }

  /** Normalised weights sum to one. */
  lemma NormalizedSumToOne(w: Weights)
    requires SumValues(w) != 0.0
    ensures SumValues(Normalize(w, SumValues(w))) == 1.0
  {
    var total := SumValues(w);
    SumValuesNormalize(w, total);
    assert total / total == 1.0;
  }

  lemma {:induction false} SumValuesConstant(w: Weights, c: real)
    requires forall f :: 0 <= f < |w| ==> w[f].1 == c
    ensures SumValues(w) == |w| as real * c
    decreases |w|
  {
    if w != [] {
      SumValuesConstant(w[..|w| - 1], c);
    }
  }

  /** Without weights, each of the k families weighs 1/k, before and after
      normalisation. */
  lemma DefaultWeightsEqual(rankings: Rankings)
    requires rankings != []
    ensures SumValues(DefaultWeights(rankings)) == 1.0
    ensures NormalizedWeights(rankings, None) == DefaultWeights(rankings)
  {
    var w := DefaultWeights(rankings);
    var k := |rankings| as real;
    SumValuesConstant(w, 1.0 / k);
    assert k * (1.0 / k) == 1.0;
  }

  // ---------------------------------------------------------------------
  // The combined score of a ticker
  // ---------------------------------------------------------------------

  /** `df['Composite ... Rank']` aligned on the combined index: the
      family's composite of `t`, missing when `t` is not in the family. */
  function Composite(family: FamilyRanking, t: string): Option<real> {
    var e := Lookup(family.composites, t);
    if e.Some? then e.value else None
  }

  /** The family's present composites. */
  function PresentComposites(family: Composites): (xs: seq<real>)
    decreases |family|
  {
    if family == [] then []
    else
      var rest := PresentComposites(family[..|family| - 1]);
      var c := family[|family| - 1].1;
      if c.Some? then rest + [c.value] else rest
  }

  /** The family's rank of `t` after `fillna(median)`. */
  function FilledRank(family: FamilyRanking, t: string): Option<real> {
    var c := Composite(family, t);
    if c.Some? then c else Median(PresentComposites(family.composites))
  }

  /** `weights[family]`, read only once the family is known to have one. */
  function WeightOf(w: Weights, family: string): real {
    var wf := Lookup(w, family);
    if wf.Some? then wf.value else 0.0
  }

  /** The weight of each family, in family order. */
  function FamilyWeights(rankings: Rankings, w: Weights): (ws: seq<real>)
    ensures |ws| == |rankings|
    ensures forall f :: 0 <= f < |rankings| ==> ws[f] == WeightOf(w, rankings[f].0)
  {
    seq(|rankings|, f requires 0 <= f < |rankings| => WeightOf(w, rankings[f].0))
  }

  /** The filled ranks of `t`, one per family in order. */
  function FilledRanks(rankings: Rankings, t: string): (rs: seq<Option<real>>)
    ensures |rs| == |rankings|
    ensures forall f :: 0 <= f < |rankings| ==> rs[f] == FilledRank(rankings[f].1, t)
  {
    seq(|rankings|, f requires 0 <= f < |rankings| => FilledRank(rankings[f].1, t))
  }

  /** The combined score of `t` under the (normalised) weights `w`. */
  function Score(rankings: Rankings, w: Weights, t: string): Option<real> {
    WeightedSum(FilledRanks(rankings, t), FamilyWeights(rankings, w))
  }

  // ---------------------------------------------------------------------
  // When the combiner raises
  // ---------------------------------------------------------------------

  /** The first family, in order, that has no rank column or no weight. */
  function FirstUnweighable(rankings: Rankings, w: Weights): (e: Option<CombineError>)
    ensures e.None? <==> forall f :: 0 <= f < |rankings| ==>
                           Weighable(rankings[f], w)
    decreases |rankings|
  {
    if rankings == [] then None
    else if !HasRankColumn(rankings[0].0, rankings[0].1) then Some(MissingRankColumn(rankings[0].0))
    else if Lookup(w, rankings[0].0).None? then Some(MissingWeight(rankings[0].0))
    else
      assert forall f :: 1 <= f < |rankings| ==> rankings[f] == rankings[1..][f - 1];
      FirstUnweighable(rankings[1..], w)
  }

  /** The error `combine_factor_rankings` raises, if any. */
  function CombineFailure(rankings: Rankings, weights: Option<Weights>): Option<CombineError> {
    if rankings == [] then Some(NoRankings)
    else
      var w := RawWeights(rankings, weights);
      if w != [] && SumValues(w) == 0.0 then Some(ZeroTotalWeight)
      else FirstUnweighable(rankings, Normalize(w, SumValues(w)))
  }

  // ---------------------------------------------------------------------
  // The combined table
  // ---------------------------------------------------------------------

  /** The index of a family's table. */
  function FamilyTickers(family: FamilyRanking): (ts: set<string>)
    ensures forall t :: t in ts <==> Lookup(family.composites, t).Some?
  {
    var ts := set p | p in family.composites :: p.0;
    assert forall t :: Lookup(family.composites, t).Some? ==> (t, Lookup(family.composites, t).value) in family.composites;
    ts
  }

  /** `all_tickers` after updating it with the index of every family. */
  function Union(rankings: Rankings): set<string>
    decreases |rankings|
  {
    if rankings == [] then {} else Union(rankings[..|rankings| - 1]) + FamilyTickers(rankings[|rankings| - 1].1)
  }

  /** A ticker is in the combined table iff some family lists it. */
  lemma {:induction false} UnionMember(rankings: Rankings, t: string)
    ensures t in Union(rankings) <==> exists f :: 0 <= f < |rankings| && Lookup(rankings[f].1.composites, t).Some?
    decreases |rankings|
  {
    if rankings != [] {
      var n := |rankings| - 1;
      UnionMember(rankings[..n], t);
      assert forall f :: 0 <= f < n ==> rankings[..n][f] == rankings[f];
    }
  }

  function ScoreKey(x: CombinedRow): Option<real> {
    x.score
  }

  /** `out` is the combined table: each ticker of the union exactly once,
      with its filled rank in every family and its weighted score, sorted
      ascending by score with missing scores last. */
  ghost predicate IsCombined(rankings: Rankings, w: Weights, out: seq<CombinedRow>) {
    && Distinct(Tickers(out))
    && (forall t :: t in Union(rankings) <==> exists i :: 0 <= i < |out| && out[i].ticker == t)
    && (forall i :: 0 <= i < |out| ==>
          && |out[i].ranks| == |rankings|
          && (forall f :: 0 <= f < |rankings| ==> out[i].ranks[f] == FilledRank(rankings[f].1, out[i].ticker))
          && out[i].score == Score(rankings, w, out[i].ticker))
    && SortedBy(out, ScoreKey)
  }

  function Tickers(rows: seq<CombinedRow>): (ts: seq<string>)
    ensures |ts| == |rows|
    ensures forall i :: 0 <= i < |rows| ==> ts[i] == rows[i].ticker
  {
    seq(|rows|, i requires 0 <= i < |rows| => rows[i].ticker)
  }

  /** Removing the row at `p` keeps the others, with their tickers distinct. */
  lemma RemoveRow(a: seq<CombinedRow>, p: nat)
    requires p < |a| && Distinct(Tickers(a))
    ensures multiset(a) == multiset(a[..p] + a[p + 1..]) + multiset{a[p]}
    ensures Distinct(Tickers(a[..p] + a[p + 1..]))
    ensures forall q :: 0 <= q < p ==> (a[..p] + a[p + 1..])[q] == a[q]
    ensures forall q :: p < q < |a| ==> (a[..p] + a[p + 1..])[q - 1] == a[q]
  {
    RemoveRowMultiset(a, p);
    RemoveRowDistinct(a, p);
  }

  lemma RemoveRowMultiset(a: seq<CombinedRow>, p: nat)
    requires p < |a|
    ensures multiset(a) == multiset(a[..p] + a[p + 1..]) + multiset{a[p]}
  {
    var l, r := a[..p], a[p + 1..];
    assert a == l + [a[p]] + r;
    assert multiset(a) == multiset(l) + multiset{a[p]} + multiset(r);
    assert multiset(l + r) == multiset(l) + multiset(r);
  }

  lemma RemoveRowDistinct(a: seq<CombinedRow>, p: nat)
    requires p < |a| && Distinct(Tickers(a))
    ensures Distinct(Tickers(a[..p] + a[p + 1..]))
  {
    var a' := a[..p] + a[p + 1..];
    var ts, ts' := Tickers(a), Tickers(a');
    forall i, j | 0 <= i < j < |a'| ensures ts'[i] != ts'[j] {
      var i' := if i < p then i else i + 1;
      var j' := if j < p then j else j + 1;
      assert ts'[i] == ts[i'] && ts'[j] == ts[j'] && i' < j';
    }
  }

  lemma MultisetTail(a: seq<CombinedRow>, b: seq<CombinedRow>, p: nat)
    requires multiset(a) == multiset(b) && b != [] && p < |a| && a[p] == b[0]
    ensures multiset(b[1..]) == multiset(a[..p] + a[p + 1..])
  {
    RemoveRowMultiset(a, p);
    assert b == [b[0]] + b[1..];
    MultisetCancel(multiset(b[1..]), multiset(a[..p] + a[p + 1..]), b[0]);
  }

  lemma MultisetCancel<T>(x: multiset<T>, y: multiset<T>, e: T)
    requires x + multiset{e} == y + multiset{e}
    ensures x == y
  {
    forall z ensures x[z] == y[z] {
      assert (x + multiset{e})[z] == (y + multiset{e})[z];
    }
  }

  /** The row at `p` is the only one with its ticker. */
  lemma TickerUnique(a: seq<CombinedRow>, p: nat, y: CombinedRow)
    requires p < |a| && Distinct(Tickers(a))
    requires y in multiset(a[..p] + a[p + 1..])
    ensures y.ticker != a[p].ticker
  {
    RemoveRow(a, p);
    var a' := a[..p] + a[p + 1..];
    var q :| 0 <= q < |a'| && a'[q] == y;
    if q < p {
      assert Tickers(a)[q] != Tickers(a)[p];
    } else {
      assert a[q + 1] == y;
      assert Tickers(a)[p] != Tickers(a)[q + 1];
    }
  }

  /** Reordering rows keeps their tickers distinct. */
  lemma {:induction false} TickersPermutation(a: seq<CombinedRow>, b: seq<CombinedRow>)
    requires multiset(a) == multiset(b)
    requires Distinct(Tickers(a))
    ensures Distinct(Tickers(b))
    decreases |b|
  {
    if b != [] {
      assert b[0] in multiset(a);
      var p :| 0 <= p < |a| && a[p] == b[0];
      RemoveRow(a, p);
      MultisetTail(a, b, p);
      TickersPermutation(a[..p] + a[p + 1..], b[1..]);
      forall i, j | 0 <= i < j < |b| ensures Tickers(b)[i] != Tickers(b)[j] {
        assert b[j] == b[1..][j - 1];
        if i == 0 {
          assert b[j] in multiset(b[1..]);
          TickerUnique(a, p, b[j]);
        } else {
          assert b[i] == b[1..][i - 1];
          assert Tickers(b[1..])[i - 1] != Tickers(b[1..])[j - 1];
        }
      }
    }
  }

  /** The prefix of the families that the weighted sum has passed had a
      rank column and a weight, so the first one missing either is found
      further on. */
  lemma {:induction false} FirstUnweighableFrom(rankings: Rankings, w: Weights, f: nat)
    requires f <= |rankings|
    requires forall g :: 0 <= g < f ==> Weighable(rankings[g], w)
    ensures FirstUnweighable(rankings, w) == FirstUnweighable(rankings[f..], w)
    decreases f
  {
    if f > 0 {
      assert rankings[1..][f - 1..] == rankings[f..];
      forall g | 0 <= g < f - 1 ensures Weighable(rankings[1..][g], w) {
        assert rankings[1..][g] == rankings[g + 1];
      }
      FirstUnweighableFrom(rankings[1..], w, f - 1);
    }
  }

  /** `all_tickers.update(df.index)` over every family. */
  method TickerUnion(rankings: Rankings) returns (all: set<string>)
    ensures all == Union(rankings)
  {
    all := {};
    var f := 0;
    while f < |rankings|
      invariant 0 <= f <= |rankings|
      invariant all == Union(rankings[..f])
    {
      assert rankings[..f + 1][..f] == rankings[..f];
      all := all + FamilyTickers(rankings[f].1);
      f := f + 1;
    }
    assert rankings[..|rankings|] == rankings;
  }

  /** `list(all_tickers)`: every ticker once, in no particular order. */
  method ListTickers(all: set<string>) returns (index: seq<string>)
    ensures Distinct(index)
    ensures forall t :: t in all <==> t in index
  {
    index := [];
    var rest := all;
    while rest != {}
      invariant Distinct(index)
      invariant forall t :: t in all <==> t in rest || t in index
      invariant forall t :: t in rest ==> t !in index
      decreases |rest|
    {
      var t :| t in rest;
      index := index + [t];
      rest := rest - {t};
    }
  }

  /** The rank column of every family that has one, aligned on `index`;
      `None` for a family without one. */
  method RankColumns(rankings: Rankings, index: seq<string>) returns (cols: seq<Option<seq<Option<real>>>>)
    ensures |cols| == |rankings|
    ensures forall f :: 0 <= f < |rankings| ==> (cols[f].Some? <==> HasRankColumn(rankings[f].0, rankings[f].1))
    ensures forall f :: 0 <= f < |rankings| && cols[f].Some? ==>
              |cols[f].value| == |index| &&
              forall i :: 0 <= i < |index| ==> cols[f].value[i] == Composite(rankings[f].1, index[i])
  {
    cols := [];
    var f := 0;
    while f < |rankings|
      invariant 0 <= f <= |rankings| && |cols| == f
      invariant forall g :: 0 <= g < f ==> (cols[g].Some? <==> HasRankColumn(rankings[g].0, rankings[g].1))
      invariant forall g :: 0 <= g < f && cols[g].Some? ==>
                  |cols[g].value| == |index| &&
                  forall i :: 0 <= i < |index| ==> cols[g].value[i] == Composite(rankings[g].1, index[i])
    {
      if HasRankColumn(rankings[f].0, rankings[f].1) {
        var family := rankings[f].1;
        var col := seq(|index|, i requires 0 <= i < |index| => Composite(family, index[i]));
        cols := cols + [Some(col)];
      } else {
        cols := cols + [None];
      }
      f := f + 1;
    }
  }

  /** `fillna(median)` on every rank column: a ticker missing from a
      family, or unranked in it, takes the family's median composite. */
  method FillMedians(rankings: Rankings, index: seq<string>, cols: seq<Option<seq<Option<real>>>>)
    returns (filled: seq<Option<seq<Option<real>>>>)
    requires |cols| == |rankings|
    requires forall f :: 0 <= f < |rankings| && cols[f].Some? ==>
               |cols[f].value| == |index| &&
               forall i :: 0 <= i < |index| ==> cols[f].value[i] == Composite(rankings[f].1, index[i])
    ensures |filled| == |rankings|
    ensures forall f :: 0 <= f < |rankings| ==> (filled[f].Some? <==> cols[f].Some?)
    ensures forall f :: 0 <= f < |rankings| && filled[f].Some? ==>
              |filled[f].value| == |index| &&
              forall i :: 0 <= i < |index| ==> filled[f].value[i] == FilledRank(rankings[f].1, index[i])
  {
    filled := cols;
    var f := 0;
    while f < |filled|
      invariant 0 <= f <= |filled| == |rankings|
      invariant forall g :: 0 <= g < |rankings| ==> (filled[g].Some? <==> cols[g].Some?)
      invariant forall g :: 0 <= g < |rankings| && filled[g].Some? ==> |filled[g].value| == |index|
      invariant forall g :: 0 <= g < f && filled[g].Some? ==>
                  forall i :: 0 <= i < |index| ==> filled[g].value[i] == FilledRank(rankings[g].1, index[i])
      invariant forall g :: f <= g < |rankings| ==> filled[g] == cols[g]
    {
      if filled[f].Some? {
        var col := filled[f].value;
        var median := Median(PresentComposites(rankings[f].1.composites));
        var column := seq(|col|, i requires 0 <= i < |col| => if col[i].Some? then col[i] else median);
        filled := filled[f := Some(column)];
      }
      f := f + 1;
    }
  }

  /** The score of `t` summed over the first `f` families only. */
  ghost function PartialScore(rankings: Rankings, ws: seq<real>, t: string, f: nat): Option<real>
    requires |ws| == |rankings| && f <= |rankings|
  {
    WeightedSum(FilledRanks(rankings, t)[..f], ws[..f])
  }

  lemma PartialScoreZero(rankings: Rankings, ws: seq<real>, t: string)
    requires |ws| == |rankings|
    ensures PartialScore(rankings, ws, t, 0) == Some(0.0)
  {
    assert FilledRanks(rankings, t)[..0] == [] && ws[..0] == [];
  }

  lemma PartialScoreStep(rankings: Rankings, ws: seq<real>, t: string, f: nat)
    requires f < |rankings| == |ws|
    ensures PartialScore(rankings, ws, t, f + 1)
            == AddTerm(PartialScore(rankings, ws, t, f), FilledRank(rankings[f].1, t), ws[f])
  {
    WeightedSumExtend(FilledRanks(rankings, t), ws, f);
  }

  lemma PartialScoreAll(rankings: Rankings, w: Weights, t: string)
    ensures PartialScore(rankings, FamilyWeights(rankings, w), t, |rankings|) == Score(rankings, w, t)
  {
    var rs, ws := FilledRanks(rankings, t), FamilyWeights(rankings, w);
    assert rs[..|rankings|] == rs && ws[..|rankings|] == ws;
  }

  /** `scores` holds, for each ticker of `index`, its score over the first
      `f` families. */
  ghost predicate ScoredUpTo(rankings: Rankings, ws: seq<real>, index: seq<string>, scores: seq<Option<real>>, f: nat)
    requires |ws| == |rankings| && f <= |rankings|
  {
    |scores| == |index| && forall i :: 0 <= i < |index| ==> scores[i] == PartialScore(rankings, ws, index[i], f)
  }

  /** `combined['Weighted Composite Rank'] = 0`. */
  function Zeros(n: nat): (z: seq<Option<real>>)
    ensures |z| == n && forall i :: 0 <= i < n ==> z[i] == Some(0.0)
  {
    if n == 0 then [] else Zeros(n - 1) + [Some(0.0)]
  }

  lemma PartialScoresStart(rankings: Rankings, ws: seq<real>, index: seq<string>)
    requires |ws| == |rankings|
    ensures ScoredUpTo(rankings, ws, index, Zeros(|index|), 0)
  {
    var scores := Zeros(|index|);
    forall i | 0 <= i < |index| ensures scores[i] == PartialScore(rankings, ws, index[i], 0) {
      PartialScoreZero(rankings, ws, index[i]);
    }
  }

  lemma PartialScoresComplete(rankings: Rankings, w: Weights, index: seq<string>, scores: seq<Option<real>>)
    requires ScoredUpTo(rankings, FamilyWeights(rankings, w), index, scores, |rankings|)
    ensures forall i :: 0 <= i < |index| ==> scores[i] == Score(rankings, w, index[i])
  {
    forall i | 0 <= i < |index| ensures scores[i] == Score(rankings, w, index[i]) {
      PartialScoreAll(rankings, w, index[i]);
    }
  }

  /** When every family has both, nothing is reported. */
  lemma AllWeighable(rankings: Rankings, w: Weights)
    requires forall f :: 0 <= f < |rankings| ==> Weighable(rankings[f], w)
    ensures FirstUnweighable(rankings, w) == None
  {
  }

  /** The first family, after a prefix that had both, lacking a rank column
      or a weight is the one reported. */
  lemma FirstUnweighableAt(rankings: Rankings, w: Weights, f: nat)
    requires f < |rankings|
    requires forall g :: 0 <= g < f ==> Weighable(rankings[g], w)
    requires !HasRankColumn(rankings[f].0, rankings[f].1) || Lookup(w, rankings[f].0).None?
    ensures FirstUnweighable(rankings, w)
            == Some(if !HasRankColumn(rankings[f].0, rankings[f].1) then MissingRankColumn(rankings[f].0) else MissingWeight(rankings[f].0))
  {
    FirstUnweighableFrom(rankings, w, f);
  }

  /** `combined['Weighted Composite Rank'] += column * weight` for family
      `f`, ticker by ticker. */
  method AddColumn(rankings: Rankings, ghost ws: seq<real>, index: seq<string>, f: nat,
                   scores: seq<Option<real>>, col: seq<Option<real>>, weight: real)
    returns (next: seq<Option<real>>)
    requires f < |rankings| == |ws| && |scores| == |col| == |index| && ws[f] == weight
    requires forall i :: 0 <= i < |index| ==> col[i] == FilledRank(rankings[f].1, index[i])
    requires forall i :: 0 <= i < |index| ==> scores[i] == PartialScore(rankings, ws, index[i], f)
    ensures |next| == |index|
    ensures forall i :: 0 <= i < |index| ==> next[i] == PartialScore(rankings, ws, index[i], f + 1)
  {
    next := seq(|index|, i requires 0 <= i < |index| => AddTerm(scores[i], col[i], weight));
    forall i | 0 <= i < |index| ensures next[i] == PartialScore(rankings, ws, index[i], f + 1) {
      PartialScoreStep(rankings, ws, index[i], f);
    }
  }

  /** `cols` holds, for every family with a rank column and only for
      those, its filled rank of each ticker of `index`. */
  ghost predicate ColumnsFilled(rankings: Rankings, index: seq<string>, cols: seq<Option<seq<Option<real>>>>) {
    && |cols| == |rankings|
    && (forall f :: 0 <= f < |rankings| ==> (cols[f].Some? <==> HasRankColumn(rankings[f].0, rankings[f].1)))
    && (forall f :: 0 <= f < |rankings| && cols[f].Some? ==>
          |cols[f].value| == |index| &&
          forall i :: 0 <= i < |index| ==> cols[f].value[i] == FilledRank(rankings[f].1, index[i]))
  }

  /** One pass of the loop over the families: family `f` either lacks a
      rank column or a weight, and is the first to, or its weighted
      column is added to the running scores. */
  method WeighFamily(rankings: Rankings, w: Weights, index: seq<string>, f: nat,
                     scores: seq<Option<real>>, cols: seq<Option<seq<Option<real>>>>)
    returns (r: Result<seq<Option<real>>, CombineError>)
    requires f < |rankings| && |scores| == |index| && ColumnsFilled(rankings, index, cols)
    requires forall g :: 0 <= g < f ==> Weighable(rankings[g], w)
    requires ScoredUpTo(rankings, FamilyWeights(rankings, w), index, scores, f)
    ensures r.Failure? ==> FirstUnweighable(rankings, w) == Some(r.error)
    ensures r.Success? ==> Weighable(rankings[f], w)
    ensures r.Success? ==> ScoredUpTo(rankings, FamilyWeights(rankings, w), index, r.value, f + 1)
  {
    var col := cols[f];
    if col.None? {
      FirstUnweighableAt(rankings, w, f);
      return Failure(MissingRankColumn(rankings[f].0));
    }
    var weight := Lookup(w, rankings[f].0);
    if weight.None? {
      FirstUnweighableAt(rankings, w, f);
      return Failure(MissingWeight(rankings[f].0));
    }
    ghost var ws := FamilyWeights(rankings, w);
    assert ws[f] == weight.value;
    var next := AddColumn(rankings, ws, index, f, scores, col.value, weight.value);
    return Success(next);
  }

  /** The loop summing `rank * weight` over the families, in order; it
      stops at the first family without a rank column or a weight. */
  method WeightedComposite(rankings: Rankings, w: Weights, index: seq<string>, cols: seq<Option<seq<Option<real>>>>)
    returns (r: Result<seq<Option<real>>, CombineError>)
    requires ColumnsFilled(rankings, index, cols)
    ensures r.Failure? <==> FirstUnweighable(rankings, w).Some?
    ensures r.Failure? ==> r.error == FirstUnweighable(rankings, w).value
    ensures r.Success? ==> |r.value| == |index|
    ensures r.Success? ==> forall i :: 0 <= i < |index| ==> r.value[i] == Score(rankings, w, index[i])
  {
    var scores := Zeros(|index|);
    PartialScoresStart(rankings, FamilyWeights(rankings, w), index);
    var f := 0;
    while f < |rankings|
      invariant 0 <= f <= |rankings|
      invariant forall g :: 0 <= g < f ==> Weighable(rankings[g], w)
      invariant ScoredUpTo(rankings, FamilyWeights(rankings, w), index, scores, f)
    {
      var step := WeighFamily(rankings, w, index, f, scores, cols);
      if step.Failure? {
        return Failure(step.error);
      }
      scores := step.value;
      f := f + 1;
    }
    PartialScoresComplete(rankings, w, index, scores);
    AllWeighable(rankings, w);
    return Success(scores);
  }

  /** Every row holds its ticker's filled rank in each family and its
      weighted score. */
  ghost predicate RowsScored(rankings: Rankings, w: Weights, rows: seq<CombinedRow>) {
    forall i :: 0 <= i < |rows| ==>
      && |rows[i].ranks| == |rankings|
      && (forall f :: 0 <= f < |rankings| ==> rows[i].ranks[f] == FilledRank(rankings[f].1, rows[i].ticker))
      && rows[i].score == Score(rankings, w, rows[i].ticker)
  }

  /** The combined frame before sorting: one row per index entry. */
  function BuildRows(rankings: Rankings, index: seq<string>, cols: seq<Option<seq<Option<real>>>>, scores: seq<Option<real>>)
    : (rows: seq<CombinedRow>)
    requires |cols| == |rankings| && |scores| == |index|
    requires forall f :: 0 <= f < |rankings| && cols[f].Some? ==> |cols[f].value| == |index|
    ensures Tickers(rows) == index
    ensures forall i :: 0 <= i < |index| ==>
              rows[i].score == scores[i] && |rows[i].ranks| == |rankings| &&
              forall f :: 0 <= f < |rankings| && cols[f].Some? ==> rows[i].ranks[f] == cols[f].value[i]
  {
    seq(|index|, i requires 0 <= i < |index| =>
      CombinedRow(index[i], seq(|rankings|, f requires 0 <= f < |rankings| => if cols[f].Some? then cols[f].value[i] else None), scores[i]))
  }

  lemma BuiltRowsScored(rankings: Rankings, w: Weights, index: seq<string>,
                        cols: seq<Option<seq<Option<real>>>>, scores: seq<Option<real>>)
    requires |cols| == |rankings| && |scores| == |index|
    requires forall f :: 0 <= f < |rankings| ==> cols[f].Some?
    requires forall f :: 0 <= f < |rankings| ==>
               |cols[f].value| == |index| &&
               forall i :: 0 <= i < |index| ==> cols[f].value[i] == FilledRank(rankings[f].1, index[i])
    requires forall i :: 0 <= i < |index| ==> scores[i] == Score(rankings, w, index[i])
    ensures RowsScored(rankings, w, BuildRows(rankings, index, cols, scores))
  {
    var rows := BuildRows(rankings, index, cols, scores);
    forall i | 0 <= i < |rows|
      ensures |rows[i].ranks| == |rankings|
      ensures forall f :: 0 <= f < |rankings| ==> rows[i].ranks[f] == FilledRank(rankings[f].1, rows[i].ticker)
      ensures rows[i].score == Score(rankings, w, rows[i].ticker)
    {
      assert rows[i].ticker == Tickers(rows)[i] == index[i];
    }
  }

  /** Sorting the scored rows of the union gives the combined table. */
  lemma SortedRowsCombined(rankings: Rankings, w: Weights, rows: seq<CombinedRow>, sorted: seq<CombinedRow>)
    requires Distinct(Tickers(rows))
    requires forall t :: t in Union(rankings) <==> t in Tickers(rows)
    requires RowsScored(rankings, w, rows)
    requires multiset(sorted) == multiset(rows) && SortedBy(sorted, ScoreKey)
    ensures IsCombined(rankings, w, sorted)
  {
    TickersPermutation(rows, sorted);
    assert Tickers(sorted) == seq(|sorted|, i requires 0 <= i < |sorted| => sorted[i].ticker);
    forall t ensures t in Union(rankings) <==> exists i :: 0 <= i < |sorted| && sorted[i].ticker == t {
      if t in Union(rankings) {
        var i :| 0 <= i < |rows| && Tickers(rows)[i] == t;
        assert rows[i] in multiset(sorted);
      }
      if exists i :: 0 <= i < |sorted| && sorted[i].ticker == t {
        var i :| 0 <= i < |sorted| && sorted[i].ticker == t;
        assert sorted[i] in multiset(rows);
      }
    }
    forall i | 0 <= i < |sorted|
      ensures |sorted[i].ranks| == |rankings|
      ensures forall f :: 0 <= f < |rankings| ==> sorted[i].ranks[f] == FilledRank(rankings[f].1, sorted[i].ticker)
      ensures sorted[i].score == Score(rankings, w, sorted[i].ticker)
    {
      assert sorted[i] in multiset(rows);
    }
  }

  /** `combine_factor_rankings(rankings, weights)`: fails with the error the
      source raises, and otherwise returns the combined table. */
  method CombineFactorRankings(rankings: Rankings, weights: Option<Weights>)
    returns (r: Result<seq<CombinedRow>, CombineError>)
    requires ValidRankings(rankings) && ValidWeights(weights)
    ensures r.Failure? <==> CombineFailure(rankings, weights).Some?
    ensures r.Failure? ==> r.error == CombineFailure(rankings, weights).value
    ensures r.Success? ==> IsCombined(rankings, NormalizedWeights(rankings, weights), r.value)
  {
    if rankings == [] {
      return Failure(NoRankings);
    }
    var w := if weights.None? then DefaultWeights(rankings) else weights.value;
    var total := SumValues(w);
    if w != [] && total == 0.0 {
      return Failure(ZeroTotalWeight);
    }
    w := Normalize(w, total);
    r := CombineWeighted(rankings, w);
  }

  /** The part of `combine_factor_rankings` after the weights are
      normalised. */
  method CombineWeighted(rankings: Rankings, w: Weights) returns (r: Result<seq<CombinedRow>, CombineError>)
    requires ValidRankings(rankings)
    ensures r.Failure? <==> FirstUnweighable(rankings, w).Some?
    ensures r.Failure? ==> r.error == FirstUnweighable(rankings, w).value
    ensures r.Success? ==> IsCombined(rankings, w, r.value)
  {
    var all := TickerUnion(rankings);
    var index := ListTickers(all);
    var cols := RankColumns(rankings, index);
    cols := FillMedians(rankings, index, cols);
    var scores := WeightedComposite(rankings, w, index, cols);
    if scores.Failure? {
      return Failure(scores.error);
    }
    var rows := BuildRows(rankings, index, cols, scores.value);
    BuiltRowsScored(rankings, w, index, cols, scores.value);
    var sorted := SortBy(rows, ScoreKey);
    SortedRowsCombined(rankings, w, rows, sorted);
    return Success(sorted);
  }

  // ---------------------------------------------------------------------
  // Properties of the combined score
  // ---------------------------------------------------------------------

  lemma {:induction false} PresentCompositesMember(family: Composites, x: real)
    ensures x in PresentComposites(family) <==> exists i :: 0 <= i < |family| && family[i].1 == Some(x)
    decreases |family|
  {
    if family != [] {
      var n := |family| - 1;
      PresentCompositesMember(family[..n], x);
      assert forall i :: 0 <= i < n ==> family[..n][i] == family[i];
    }
  }

  lemma {:induction false} PresentCompositesEmpty(family: Composites)
    ensures PresentComposites(family) == [] <==> forall i :: 0 <= i < |family| ==> family[i].1.None?
    decreases |family|
  {
    if family != [] {
      var n := |family| - 1;
      PresentCompositesEmpty(family[..n]);
      assert forall i :: 0 <= i < n ==> family[..n][i] == family[i];
    }
  }

  /** A ticker's filled rank in a family lies within the range of the
      family's composites; it is missing only when the ticker is not ranked
      there and no ticker of the family is. */
  lemma FilledRankWithin(family: FamilyRanking, t: string, lo: real, hi: real)
    requires forall i :: 0 <= i < |family.composites| && family.composites[i].1.Some? ==>
               lo <= family.composites[i].1.value <= hi
    ensures FilledRank(family, t).None? <==>
              Composite(family, t).None? && forall i :: 0 <= i < |family.composites| ==> family.composites[i].1.None?
    ensures FilledRank(family, t).Some? ==> lo <= FilledRank(family, t).value <= hi
  {
    PresentCompositesEmpty(family.composites);
    var xs := PresentComposites(family.composites);
    if Composite(family, t).None? && xs != [] {
      forall k | 0 <= k < |xs| ensures lo <= xs[k] <= hi {
        PresentCompositesMember(family.composites, xs[k]);
      }
      MedianWithin(xs, lo, hi);
    }
  }

  /** A combined score is missing iff the ticker's filled rank is missing
      in some family. */
  lemma ScoreMissingIff(rankings: Rankings, w: Weights, t: string)
    ensures Score(rankings, w, t).None? <==> exists f :: 0 <= f < |rankings| && FilledRank(rankings[f].1, t).None?
  {
    var rs := FilledRanks(rankings, t);
    WeightedSumMissingIff(rs, FamilyWeights(rankings, w));
    if exists f :: 0 <= f < |rankings| && FilledRank(rankings[f].1, t).None? {
      var f :| 0 <= f < |rankings| && FilledRank(rankings[f].1, t).None?;
      assert rs[f].None?;
    }
  }

  lemma LookupDistinct(w: Weights, f: nat)
    requires f < |w| && Distinct(Keys(w))
    ensures Lookup(w, w[f].0) == Some(w[f].1)
  {
    var v := Lookup(w, w[f].0).value;
    var i :| 0 <= i < |w| && w[i] == (w[f].0, v);
    assert Keys(w)[i] == Keys(w)[f];
  }

  function WeightValues(w: Weights): (vs: seq<real>)
    ensures |vs| == |w| && forall i :: 0 <= i < |w| ==> vs[i] == w[i].1
  {
    seq(|w|, i requires 0 <= i < |w| => w[i].1)
  }

  lemma {:induction false} SumWeightValues(w: Weights)
    ensures Sum(WeightValues(w)) == SumValues(w)
    decreases |w|
  {
    if w != [] {
      SumWeightValues(w[..|w| - 1]);
      assert WeightValues(w)[..|w| - 1] == WeightValues(w[..|w| - 1]);
    }
  }

  /** Weights keyed by the families in order are read off position by
      position. */
  lemma FamilyWeightsKeyed(rankings: Rankings, w: Weights)
    requires Keys(w) == Keys(rankings) && Distinct(Keys(w))
    ensures FamilyWeights(rankings, w) == WeightValues(w)
  {
    var ws := FamilyWeights(rankings, w);
    forall f | 0 <= f < |rankings| ensures ws[f] == w[f].1 {
      assert Keys(w)[f] == Keys(rankings)[f];
      LookupDistinct(w, f);
    }
  }

  lemma ScoreWithinWeights(rankings: Rankings, ws: seq<real>, t: string, lo: real, hi: real)
    requires |ws| == |rankings|
    requires forall f :: 0 <= f < |ws| ==> ws[f] >= 0.0
    requires Sum(ws) == 1.0
    requires forall f :: 0 <= f < |rankings| ==> FilledRank(rankings[f].1, t).Some? && lo <= FilledRank(rankings[f].1, t).value <= hi
    ensures WeightedSum(FilledRanks(rankings, t), ws).Some?
    ensures lo <= WeightedSum(FilledRanks(rankings, t), ws).value <= hi
  {
    WeightedSumWithin(FilledRanks(rankings, t), ws, lo, hi);
  }

  /** With non-negative weights summing to one and keyed by the families in
      order, the combined score lies within the bounds of the filled ranks. */
  lemma ScoreWithin(rankings: Rankings, w: Weights, t: string, lo: real, hi: real)
    requires Keys(w) == Keys(rankings) && Distinct(Keys(w))
    requires forall f :: 0 <= f < |w| ==> w[f].1 >= 0.0
    requires Sum(WeightValues(w)) == 1.0
    requires forall f :: 0 <= f < |rankings| ==> FilledRank(rankings[f].1, t).Some? && lo <= FilledRank(rankings[f].1, t).value <= hi
    ensures Score(rankings, w, t).Some?
    ensures lo <= Score(rankings, w, t).value <= hi
  {
    FamilyWeightsKeyed(rankings, w);
    ScoreWithinWeights(rankings, WeightValues(w), t, lo, hi);
  }

  /** Normalising non-negative weights with a positive total keeps their keys
      and gives non-negative weights summing to one. */
  lemma NormalizedConvex(w: Weights)
    requires forall f :: 0 <= f < |w| ==> w[f].1 >= 0.0
    requires SumValues(w) > 0.0
    ensures Keys(Normalize(w, SumValues(w))) == Keys(w)
    ensures forall f :: 0 <= f < |w| ==> Normalize(w, SumValues(w))[f].1 >= 0.0
    ensures SumValues(Normalize(w, SumValues(w))) == 1.0
  {
    var total := SumValues(w);
    NormalizedSumToOne(w);
    forall f | 0 <= f < |w| ensures Normalize(w, total)[f].1 >= 0.0 {
      QuotientNonnegative(w[f].1, total);
    }
  }

  lemma QuotientNonnegative(a: real, b: real)
    requires a >= 0.0 && b > 0.0
    ensures a / b >= 0.0
  {
  }

  /** With the default weights (0.5 each, see `ValueMomentumDefaults`), a
      ticker ranked by value but absent from momentum scores half its value
      composite plus half the momentum median. */
  lemma DefaultValueMomentum(v: FamilyRanking, m: FamilyRanking, t: string, a: real, b: real)
    requires Composite(v, t) == Some(a)
    requires Lookup(m.composites, t).None? && Median(PresentComposites(m.composites)) == Some(b)
    ensures Score([("value", v), ("momentum", m)], [("value", 0.5), ("momentum", 0.5)], t)
            == Some(a * 0.5 + b * 0.5)
  {
    var rankings: Rankings := [("value", v), ("momentum", m)];
    var w: Weights := [("value", 0.5), ("momentum", 0.5)];
    assert "value"[0] != "momentum"[0];
    LookupPair("value", 0.5, "momentum", 0.5);
    assert rankings[0] == ("value", v) && rankings[1] == ("momentum", m);
    assert FilledRank(v, t) == Some(a);
    MedianFilled(m, t);
    ScoreOfTwo(rankings, w, t, a, b, 0.5, 0.5);
  }

  /** A ticker missing from a family gets the family's median, which is
      missing only when the family has no composite at all. */
  lemma MedianFilled(family: FamilyRanking, t: string)
    requires Lookup(family.composites, t).None?
    ensures FilledRank(family, t) == Median(PresentComposites(family.composites))
  {
  }

  /** The score over two families with present ranks `a` and `b` and
      weights `x` and `y`. */
  lemma ScoreOfTwo(rankings: Rankings, w: Weights, t: string, a: real, b: real, x: real, y: real)
    requires |rankings| == 2
    requires FilledRank(rankings[0].1, t) == Some(a) && FilledRank(rankings[1].1, t) == Some(b)
    requires WeightOf(w, rankings[0].0) == x && WeightOf(w, rankings[1].0) == y
    ensures Score(rankings, w, t) == Some(a * x + b * y)
  {
    var ws, rs := FamilyWeights(rankings, w), FilledRanks(rankings, t);
    assert ws == [x, y] && rs == [Some(a), Some(b)];
    WeightedSumTwo(a, b, x, y);
  }

  /** Value and momentum rankings that carry their composite columns get
      0.5 each without weights and pass the combiner's checks. */
  lemma ValueMomentumDefaults(v: FamilyRanking, m: FamilyRanking)
    requires "Composite Value Rank" in v.columns && "Composite Momentum Rank" in m.columns
    ensures CombineFailure([("value", v), ("momentum", m)], None).None?
    ensures NormalizedWeights([("value", v), ("momentum", m)], None) == [("value", 0.5), ("momentum", 0.5)]
  {
    var rankings: Rankings := [("value", v), ("momentum", m)];
    DefaultWeightsEqual(rankings);
    var w := DefaultWeights(rankings);
    assert w == [("value", 0.5), ("momentum", 0.5)];
    assert Lookup(w, "value") == Some(0.5) && Lookup(w, "momentum") == Some(0.5);
    assert FirstUnweighable(rankings[1..], w) == None;
  }

  /** A `value` or `momentum` table without its composite column gets no
      rank column, and reading it for the weighted sum raises a KeyError,
      even when it is the only family. */
  lemma CompositeColumnRequired(name: string, family: FamilyRanking)
    requires name == "value" || name == "momentum"
    requires "Composite Value Rank" !in family.columns && "Composite Momentum Rank" !in family.columns
    ensures CombineFailure([(name, family)], None) == Some(MissingRankColumn(name))
  {
    var rankings: Rankings := [(name, family)];
    DefaultWeightsEqual(rankings);
  }

  /** The driver's call with value, momentum and quality rankings weighted
      0.4/0.3/0.3 raises a missing-column error for `quality`, the one
      family the combiner has no rank column for, whatever its columns. */
  lemma QualityRankingsRejected(v: FamilyRanking, m: FamilyRanking, q: FamilyRanking)
    requires "Composite Value Rank" in v.columns && "Composite Momentum Rank" in m.columns
    ensures CombineFailure([("value", v), ("momentum", m), ("quality", q)],
                           Some([("value", 0.4), ("momentum", 0.3), ("quality", 0.3)]))
            == Some(MissingRankColumn("quality"))
  {
    var w: Weights := [("value", 0.4), ("momentum", 0.3), ("quality", 0.3)];
    var w1, w2 := w[..1], w[..2];
    assert w1[..0] == [] && w2[..1] == w1 && w[..|w| - 1] == w2;
    assert SumValues(w1) == 0.4;
    assert SumValues(w2) == 0.7;
    assert SumValues(w) == 1.0;
    var nw := Normalize(w, SumValues(w));
    assert nw[0].0 == "value" && nw[1].0 == "momentum";
    assert Lookup(nw, "value").Some? && Lookup(nw[1..], "momentum").Some?;
    var rankings: Rankings := [("value", v), ("momentum", m), ("quality", q)];
    assert FirstUnweighable(rankings, nw) == FirstUnweighable(rankings[1..], nw);
    assert rankings[1..][1..] == [("quality", q)];
    assert FirstUnweighable(rankings[1..], nw) == FirstUnweighable(rankings[1..][1..], nw);
  }
}
