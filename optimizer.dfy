/**
 * `optimize_portfolio`: builds the problem handed to the SLSQP solver
 * (start from equal weights, every weight in [0, 1], weights summing to
 * one, minimise the chosen objective) and turns the solver's answer into
 * weights or an error. The solver itself is a parameter: the model states
 * what it is given and how its answer is used, not how it searches.
 */
module Optimizer {
  import opened Common
  import opened Matrices
  import opened PortfolioStatistics

  /** The objectives the caller may name. */
  datatype Objective = Sharpe | MinVolatility | MaxReturn

  /** The objective's name as the caller passes it. */
  function ObjectiveName(o: Objective): string {
    match o
    case Sharpe => "sharpe"
    case MinVolatility => "min_volatility"
    case MaxReturn => "max_return"
  }

  /** Recognises an objective name; any other name is unknown. */
  function ParseObjective(name: string): (r: Option<Objective>)
    ensures r.Some? ==> ObjectiveName(r.value) == name
  {
    if name == "sharpe" then Some(Sharpe)
    else if name == "min_volatility" then Some(MinVolatility)
    else if name == "max_return" then Some(MaxReturn)
    else None
  }

  /** Every objective is recognised by its own name, so a name is unknown
      exactly when no objective carries it. */
  lemma ParseObjectiveName(o: Objective)
    ensures ParseObjective(ObjectiveName(o)) == Some(o)
  {
    assert "sharpe"[0] != "min_volatility"[0] && "sharpe"[0] != "max_return"[0];
    assert "min_volatility"[1] != "max_return"[1];
  }

  /** The value the solver minimises at weights `w`: the negated Sharpe
      ratio, the volatility, or the negated annual return. NaN is `None`,
      and so is a weight vector of the wrong length, which numpy rejects. */
  function ObjectiveValue(o: Objective, x: seq<seq<real>>, n: nat, sqrt: real -> real, w: seq<real>): (v: Option<real>)
    requires Rectangular(x, n)
    ensures |w| != n ==> v.None?
    ensures |w| == n && o == MaxReturn ==> (v.Some? <==> HasMeans(x, n))
    ensures |w| == n && o == MinVolatility ==> (v.Some? <==> HasCovariance(x, n))
  {
    if |w| != n then None
    else
      var s := CalculatePortfolioStatistics(x, n, w, sqrt);
      match o
      case Sharpe => Scale(s.sharpeRatio, -1.0)
      case MinVolatility => s.volatility
      case MaxReturn => Scale(s.annualReturn, -1.0)
  }

  /** Minimising the `max_return` objective maximises the annual return:
      of two weight vectors, the one with the smaller objective has the
      larger return. */
  lemma MaxReturnOrientation(x: seq<seq<real>>, n: nat, sqrt: real -> real, w1: seq<real>, w2: seq<real>)
    requires Rectangular(x, n) && |w1| == n && |w2| == n && HasMeans(x, n)
    ensures ObjectiveValue(MaxReturn, x, n, sqrt, w1).Some? && ObjectiveValue(MaxReturn, x, n, sqrt, w2).Some?
    ensures ObjectiveValue(MaxReturn, x, n, sqrt, w1).value <= ObjectiveValue(MaxReturn, x, n, sqrt, w2).value
            <==> AnnualReturn(x, n, w1).value >= AnnualReturn(x, n, w2).value
  {
  }

  /** Minimising the `min_volatility` objective minimises the annual
      variance, for any square root that preserves order. */
  lemma MinVolatilityOrientation(x: seq<seq<real>>, n: nat, sqrt: real -> real, w1: seq<real>, w2: seq<real>)
    requires Rectangular(x, n) && |w1| == n && |w2| == n && HasCovariance(x, n)
    requires forall a, b :: 0.0 <= a <= b ==> sqrt(a) <= sqrt(b)
    ensures ObjectiveValue(MinVolatility, x, n, sqrt, w1).Some? && ObjectiveValue(MinVolatility, x, n, sqrt, w2).Some?
    ensures AnnualVariance(x, n, w1).value <= AnnualVariance(x, n, w2).value
            ==> ObjectiveValue(MinVolatility, x, n, sqrt, w1).value <= ObjectiveValue(MinVolatility, x, n, sqrt, w2).value
  {
    AnnualVarianceNonnegative(x, n, w1);
  }

  /** Minimising the `sharpe` objective maximises the Sharpe ratio. */
  lemma SharpeOrientation(x: seq<seq<real>>, n: nat, sqrt: real -> real, w1: seq<real>, w2: seq<real>)
    requires Rectangular(x, n) && |w1| == n && |w2| == n
    requires ObjectiveValue(Sharpe, x, n, sqrt, w1).Some? && ObjectiveValue(Sharpe, x, n, sqrt, w2).Some?
    ensures ObjectiveValue(Sharpe, x, n, sqrt, w1).value <= ObjectiveValue(Sharpe, x, n, sqrt, w2).value
            <==> CalculatePortfolioStatistics(x, n, w1, sqrt).sharpeRatio.value
                 >= CalculatePortfolioStatistics(x, n, w2, sqrt).sharpeRatio.value
  {
  }

  /** `[1/n] * n`: every weight equal. */
  function EqualWeights(n: nat): (w: seq<real>)
    requires n > 0
    ensures |w| == n && forall i :: 0 <= i < n ==> w[i] == 1.0 / n as real
  {
    seq(n, i => 1.0 / n as real)
  }

  lemma {:induction false} SumConstant(s: seq<real>, c: real)
    requires forall i :: 0 <= i < |s| ==> s[i] == c
    ensures Sum(s) == |s| as real * c
    decreases |s|
  {
    if s != [] {
      SumConstant(s[..|s| - 1], c);
    }
  }

  /** Equal weights are fully invested: they sum to one. */
  lemma EqualWeightsSumToOne(n: nat)
    requires n > 0
    ensures Sum(EqualWeights(n)) == 1.0
  {
    SumConstant(EqualWeights(n), 1.0 / n as real);
    assert n as real * (1.0 / n as real) == 1.0;
  }

  /** What `sco.minimize` is called with: the objective, the initial
      guess, a `(low, high)` bound per weight and the equality constraint
      `np.sum(x) - 1 == 0`. */
  datatype Problem = Problem(
    objective: seq<real> -> Option<real>,
    initial: seq<real>,
    bounds: seq<(real, real)>,
    constraint: seq<real> -> real)

  /** The fields of the solver's result the source reads. */
  datatype SolverResult = SolverResult(success: bool, message: string, x: seq<real>)

  /** The ways `optimize_portfolio` raises. */
  datatype OptimizeError =
    | NoAssets                          // `1/n_assets` with no column: ZeroDivisionError
    | UnknownObjective(name: string)    // ValueError "Unknown objective: ..."
    | OptimizationFailed(message: string) // ValueError "Optimization failed: ..."

  /** The problem for `n` assets and a recognised objective. */
  function MakeProblem(o: Objective, x: seq<seq<real>>, n: nat, sqrt: real -> real): (p: Problem)
    requires Rectangular(x, n) && n > 0
    ensures p.initial == EqualWeights(n)
    ensures |p.bounds| == n && forall i :: 0 <= i < n ==> p.bounds[i] == (0.0, 1.0)
    ensures forall w :: p.objective(w) == ObjectiveValue(o, x, n, sqrt, w)
    ensures forall w :: p.constraint(w) == Sum(w) - 1.0
  {
    Problem(w => ObjectiveValue(o, x, n, sqrt, w), EqualWeights(n), seq(n, i => (0.0, 1.0)), w => Sum(w) - 1.0)
  }

  /** The starting point is feasible: within every bound and satisfying
      the equality constraint. */
  lemma InitialGuessFeasible(o: Objective, x: seq<seq<real>>, n: nat, sqrt: real -> real)
    requires Rectangular(x, n) && n > 0
    ensures var p := MakeProblem(o, x, n, sqrt);
            && |p.initial| == |p.bounds|
            && (forall i :: 0 <= i < n ==> p.bounds[i].0 <= p.initial[i] <= p.bounds[i].1)
            && p.constraint(p.initial) == 0.0
  {
    var p := MakeProblem(o, x, n, sqrt);
    EqualWeightsSumToOne(n);
    forall i | 0 <= i < n ensures 0.0 <= p.initial[i] <= 1.0 {
      assert p.initial[i] == 1.0 / n as real;
    }
  }

  /** `optimize_portfolio(returns, objective)` with `minimize` standing for
      `sco.minimize(..., method='SLSQP', ...)`. */
  function OptimizePortfolio(x: seq<seq<real>>, n: nat, objective: string,
                             minimize: Problem -> SolverResult, sqrt: real -> real): (r: Result<seq<real>, OptimizeError>)
    requires Rectangular(x, n)
    ensures n == 0 ==> r == Failure(NoAssets)
    ensures n > 0 && ParseObjective(objective).None? ==> r == Failure(UnknownObjective(objective))
    ensures n > 0 && ParseObjective(objective).Some? ==>
              var answer := minimize(MakeProblem(ParseObjective(objective).value, x, n, sqrt));
              && (r.Success? <==> answer.success)
              && (r.Success? ==> r.value == answer.x)
              && (r.Failure? ==> r.error == OptimizationFailed(answer.message))
  {
    if n == 0 then Failure(NoAssets)
    else
      var o := ParseObjective(objective);
      if o.None? then Failure(UnknownObjective(objective))
      else
        var answer := minimize(MakeProblem(o.value, x, n, sqrt));
        if !answer.success then Failure(OptimizationFailed(answer.message)) else Success(answer.x)
  }
}
