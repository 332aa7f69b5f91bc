/**
 * The optimisation set-up of `portfolio`: annualised return of a weight
 * vector, the equal-weight starting point, the long-only bounds, the
 * sum-to-one constraint, and the choice of objective by method name.
 * The statistics (`pct_change`, `mean`, `cov`), the volatility (a square
 * root) and the SLSQP solver are supplied from outside.
 */
module Quant {
  import opened Results

  /** Trading days per year used to annualise daily figures. */
  const TradingDays: real := 252.0

  function Sum(xs: seq<real>): real
  {
    if |xs| == 0 then 0.0 else xs[0] + Sum(xs[1..])
  }

  /** `weights.T @ mean_returns` for vectors of equal length. */
  function Dot(w: seq<real>, mu: seq<real>): real
    requires |w| == |mu|
  {
    if |w| == 0 then 0.0 else w[0] * mu[0] + Dot(w[1..], mu[1..])
  }

  /** The smallest entry of a non-empty vector. */
  function Lowest(xs: seq<real>): (m: real)
    requires |xs| > 0
    ensures forall i :: 0 <= i < |xs| ==> m <= xs[i]
    ensures exists i :: 0 <= i < |xs| && m == xs[i]
  {
    if |xs| == 1 then xs[0]
    else
      var rest := Lowest(xs[1..]);
      assert forall i :: 1 <= i < |xs| ==> xs[i] == xs[1..][i - 1];
      if xs[0] <= rest then xs[0] else rest
  }

  /** The largest entry of a non-empty vector. */
  function Highest(xs: seq<real>): (m: real)
    requires |xs| > 0
    ensures forall i :: 0 <= i < |xs| ==> xs[i] <= m
    ensures exists i :: 0 <= i < |xs| && m == xs[i]
  {
    if |xs| == 1 then xs[0]
    else
      var rest := Highest(xs[1..]);
      assert forall i :: 1 <= i < |xs| ==> xs[i] == xs[1..][i - 1];
      if rest <= xs[0] then xs[0] else rest
  }

  /** With non-negative weights, the dot product lies between the weight total times the bounds on the means. */
  lemma {:induction false} DotBetween(w: seq<real>, mu: seq<real>, lo: real, hi: real)
    requires |w| == |mu|
    requires forall i :: 0 <= i < |w| ==> 0.0 <= w[i]
    requires forall i :: 0 <= i < |mu| ==> lo <= mu[i] <= hi
    ensures lo * Sum(w) <= Dot(w, mu) <= hi * Sum(w)
    decreases |w|
  {
    if |w| > 0 {
      var d, t := Dot(w[1..], mu[1..]), Sum(w[1..]);
      assert lo * t <= d <= hi * t by {
        assert forall i :: 0 <= i < |w| - 1 ==> w[1..][i] == w[i + 1] && mu[1..][i] == mu[i + 1];
        DotBetween(w[1..], mu[1..], lo, hi);
      }
      assert 0.0 <= w[0] && lo <= mu[0] <= hi;
      StepBetween(w[0], mu[0], d, t, lo, hi);
      assert Dot(w, mu) == w[0] * mu[0] + d;
      assert Sum(w) == w[0] + t;
    }
  }

  /** One step of `DotBetween`: a non-negative weight on a bounded mean added to a bounded rest. */
  lemma StepBetween(c: real, x: real, d: real, t: real, lo: real, hi: real)
    requires 0.0 <= c && lo <= x <= hi
    requires lo * t <= d <= hi * t
    ensures lo * (c + t) <= c * x + d <= hi * (c + t)
  {
    assert 0.0 <= c * (x - lo) && 0.0 <= c * (hi - x);
    assert lo * (c + t) == lo * c + lo * t;
    assert hi * (c + t) == hi * c + hi * t;
  }

  /** The annualised expected return of a portfolio. */
  function AnnualRets(w: seq<real>, mu: seq<real>): real
    requires |w| == |mu|
  {
    Dot(w, mu) * TradingDays
  }

  /**
   * A fully invested long-only portfolio earns between the lowest and the
   * highest annualised mean return of its assets.
   */
  lemma AnnualRetsBetween(w: seq<real>, mu: seq<real>)
    requires |w| == |mu| && |w| > 0
    requires forall i :: 0 <= i < |w| ==> 0.0 <= w[i]
    requires Sum(w) == 1.0
    ensures TradingDays * Lowest(mu) <= AnnualRets(w, mu) <= TradingDays * Highest(mu)
  {
    var lo, hi := Lowest(mu), Highest(mu);
    DotBetween(w, mu, lo, hi);
    assert lo * Sum(w) == lo && hi * Sum(w) == hi;
    assert lo <= Dot(w, mu) <= hi;
  }

  /** The weight vector a * u + b * v, entry by entry. */
  function Combine(a: real, u: seq<real>, b: real, v: seq<real>): (w: seq<real>)
    requires |u| == |v|
    ensures |w| == |u|
    ensures forall i :: 0 <= i < |u| ==> w[i] == a * u[i] + b * v[i]
  {
    seq(|u|, i requires 0 <= i < |u| => a * u[i] + b * v[i])
  }

  lemma {:induction false} DotLinear(a: real, u: seq<real>, b: real, v: seq<real>, mu: seq<real>)
    requires |u| == |v| == |mu|
    ensures Dot(Combine(a, u, b, v), mu) == a * Dot(u, mu) + b * Dot(v, mu)
    decreases |u|
  {
    if |u| > 0 {
      var w := Combine(a, u, b, v);
      var w' := Combine(a, u[1..], b, v[1..]);
      CombineTail(a, u, b, v);
      DotLinear(a, u[1..], b, v[1..], mu[1..]);
      var du := Dot(u[1..], mu[1..]);
      var dv := Dot(v[1..], mu[1..]);
      assert Dot(w, mu) == (a * u[0] + b * v[0]) * mu[0] + (a * du + b * dv);
      RegroupLinear(a, b, u[0], v[0], mu[0], du, dv);
    }
  }

  lemma CombineTail(a: real, u: seq<real>, b: real, v: seq<real>)
    requires |u| == |v| && |u| > 0
    ensures Combine(a, u, b, v)[0] == a * u[0] + b * v[0]
    ensures Combine(a, u, b, v)[1..] == Combine(a, u[1..], b, v[1..])
  {
    var w, w' := Combine(a, u, b, v), Combine(a, u[1..], b, v[1..]);
    assert forall i :: 0 <= i < |w'| ==> w[1..][i] == w'[i];
  }

  lemma RegroupLinear(a: real, b: real, x: real, y: real, m: real, dx: real, dy: real)
    ensures (a * x + b * y) * m + (a * dx + b * dy) == a * (x * m + dx) + b * (y * m + dy)
  {
  }

  /** The annualised return is linear in the weights. */
  lemma AnnualRetsLinear(a: real, u: seq<real>, b: real, v: seq<real>, mu: seq<real>)
    requires |u| == |v| == |mu|
    ensures AnnualRets(Combine(a, u, b, v), mu) == a * AnnualRets(u, mu) + b * AnnualRets(v, mu)
  {
    DotLinear(a, u, b, v, mu);
  }

  /** `1/num_assets` with no columns raises `ZeroDivisionError`. */
  datatype PortfolioError = NoAssets

  /** A box constraint on one weight. */
  datatype Bound = Bound(lo: real, hi: real)

  /** `((0.0, 1.0),) * num_assets`: long only, no leverage. */
  function LongOnlyBounds(n: nat): (bs: seq<Bound>)
    ensures |bs| == n
    ensures forall i :: 0 <= i < n ==> bs[i] == Bound(0.0, 1.0)
  {
    seq(n, i => Bound(0.0, 1.0))
  }

  /** A point the solver may return: inside its box, weights summing to one. */
  predicate Feasible(w: seq<real>, bounds: seq<Bound>)
  {
    && |w| == |bounds|
    && (forall i :: 0 <= i < |w| ==> bounds[i].lo <= w[i] <= bounds[i].hi)
    && Sum(w) == 1.0
  }

  /** A long-only weight vector summing to one has no entry above one. */
  lemma {:induction false} EntriesAtMostSum(w: seq<real>)
    requires forall i :: 0 <= i < |w| ==> 0.0 <= w[i]
    ensures forall i :: 0 <= i < |w| ==> w[i] <= Sum(w)
    ensures 0.0 <= Sum(w)
    decreases |w|
  {
    if |w| > 0 {
      assert forall i :: 0 <= i < |w| - 1 ==> w[1..][i] == w[i + 1];
      EntriesAtMostSum(w[1..]);
    }
  }

  /**
   * The long-only bounds forbid short positions and nothing more: every
   * non-negative vector summing to one is feasible, since the upper bound 1
   * follows from the budget constraint.
   */
  lemma LongOnlyFeasible(w: seq<real>)
    requires forall i :: 0 <= i < |w| ==> 0.0 <= w[i]
    requires Sum(w) == 1.0
    ensures Feasible(w, LongOnlyBounds(|w|))
  {
    EntriesAtMostSum(w);
  }

  function Repeat(c: real, n: nat): (r: seq<real>)
    ensures |r| == n
    ensures forall i :: 0 <= i < n ==> r[i] == c
  {
    seq(n, i => c)
  }

  lemma {:induction false} SumRepeat(c: real, n: nat)
    ensures Sum(Repeat(c, n)) == n as real * c
  {
    if n > 0 {
      assert Repeat(c, n)[1..] == Repeat(c, n - 1);
      SumRepeat(c, n - 1);
    }
  }

  /** `np.repeat(1/num_assets, num_assets)`: the equal-weight starting point. */
  function InitialGuess(n: nat): (r: Result<seq<real>, PortfolioError>)
    ensures r.Err? <==> n == 0
    ensures r.Ok? ==> |r.value| == n && forall i :: 0 <= i < n ==> r.value[i] * n as real == 1.0
    ensures r.Ok? ==> Feasible(r.value, LongOnlyBounds(n))
  {
    if n == 0 then Err(NoAssets)
    else
      var c := 1.0 / n as real;
      SumRepeat(c, n);
      Ok(Repeat(c, n))
  }

  lemma {:induction false} DotRepeat(c: real, mu: seq<real>)
    ensures Dot(Repeat(c, |mu|), mu) == c * Sum(mu)
    decreases |mu|
  {
    if |mu| > 0 {
      assert Repeat(c, |mu|)[1..] == Repeat(c, |mu| - 1);
      DotRepeat(c, mu[1..]);
    }
  }

  /** The starting point earns the annualised average of the mean returns. */
  lemma InitialGuessReturn(mu: seq<real>)
    requires |mu| > 0
    ensures InitialGuess(|mu|).Ok?
    ensures AnnualRets(InitialGuess(|mu|).value, mu) * |mu| as real == TradingDays * Sum(mu)
  {
    var n := |mu| as real;
    var x0 := InitialGuess(|mu|).value;
    assert x0 == Repeat(1.0 / n, |mu|);
    DotRepeat(1.0 / n, mu);
    assert (1.0 / n) * n == 1.0;
    calc {
      AnnualRets(x0, mu) * n;
      (Dot(x0, mu) * TradingDays) * n;
      (((1.0 / n) * Sum(mu)) * TradingDays) * n;
      ((1.0 / n) * n) * (Sum(mu) * TradingDays);
      TradingDays * Sum(mu);
    }
  }

  /** What the solver minimises. */
  datatype Objective =
    | NegativeSharpe(meanReturns: seq<real>, riskFreeRate: real)  // method 'msr'
    | AnnualVolatility                                           // any other method

  /**
   * The objective's value at weights `w`, given the annualised volatility
   * `vol` of `w` (the square root of the quadratic form, computed outside).
   */
  function ObjectiveValue(o: Objective, w: seq<real>, vol: real): (r: real)
    requires o.NegativeSharpe? ==> |w| == |o.meanReturns| && vol != 0.0
    ensures o.AnnualVolatility? ==> r == vol
    ensures o.NegativeSharpe? ==> r * vol == o.riskFreeRate - AnnualRets(w, o.meanReturns)
    ensures o.NegativeSharpe? && vol > 0.0 ==> (r < 0.0 <==> AnnualRets(w, o.meanReturns) > o.riskFreeRate)
  {
    match o
    case NegativeSharpe(mu, rf) => -(AnnualRets(w, mu) - rf) / vol
    case AnnualVolatility => vol
  }

  /**
   * At equal volatility, the negative-Sharpe objective ranks weight vectors
   * by annualised return in reverse: minimising it maximises excess return
   * per unit of risk.
   */
  lemma NegativeSharpeRanksByReturn(mu: seq<real>, rf: real, u: seq<real>, v: seq<real>, vol: real)
    requires |u| == |mu| && |v| == |mu| && vol > 0.0
    ensures ObjectiveValue(NegativeSharpe(mu, rf), u, vol) <= ObjectiveValue(NegativeSharpe(mu, rf), v, vol)
            <==> AnnualRets(u, mu) >= AnnualRets(v, mu)
  {
    var ru := ObjectiveValue(NegativeSharpe(mu, rf), u, vol);
    var rv := ObjectiveValue(NegativeSharpe(mu, rf), v, vol);
    assert ru * vol == rf - AnnualRets(u, mu);
    assert rv * vol == rf - AnnualRets(v, mu);
    ScaleKeepsOrder(ru, rv, vol);
  }

  lemma ScaleKeepsOrder(x: real, y: real, c: real)
    requires c > 0.0
    ensures x <= y <==> x * c <= y * c
  {
    assert (y - x) * c == y * c - x * c;
  }

  /** `if method == 'msr'`: exactly the name 'msr' selects the Sharpe objective. */
  function SelectObjective(methodName: string, mu: seq<real>, riskFreeRate: real): (o: Objective)
    ensures o.NegativeSharpe? <==> methodName == "msr"
    ensures o.NegativeSharpe? ==> o.meanReturns == mu && o.riskFreeRate == riskFreeRate
  {
    if methodName == "msr" then NegativeSharpe(mu, riskFreeRate) else AnnualVolatility
  }

  /** The call handed to the solver: objective, starting point, bounds; the sum-to-one equality is implied. */
  datatype Problem = Problem(objective: Objective, x0: seq<real>, bounds: seq<Bound>)

  /** Both branches of `portfolio` up to the solver call. */
  function Setup(mu: seq<real>, methodName: string, riskFreeRate: real): (r: Result<Problem, PortfolioError>)
    ensures r.Err? <==> |mu| == 0
    ensures r.Ok? ==> |r.value.x0| == |mu| && Feasible(r.value.x0, r.value.bounds)
    ensures r.Ok? ==> r.value.bounds == LongOnlyBounds(|mu|)
    ensures r.Ok? ==> (r.value.objective.NegativeSharpe? <==> methodName == "msr")
    ensures r.Ok? ==> forall i :: 0 <= i < |mu| ==> r.value.x0[i] * |mu| as real == 1.0
    ensures r.Ok? && r.value.objective.NegativeSharpe? ==>
              r.value.objective.meanReturns == mu && r.value.objective.riskFreeRate == riskFreeRate
  {
    match InitialGuess(|mu|)
    case Err(e) => Err(e)
    case Ok(x0) => Ok(Problem(SelectObjective(methodName, mu, riskFreeRate), x0, LongOnlyBounds(|mu|)))
  }
}
