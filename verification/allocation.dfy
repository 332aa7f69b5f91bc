/**
 * The tail of `portfolio`: the solver's weights are rounded to two
 * decimals, paired with the tickers in column order, rows whose rounded
 * weight is not positive are dropped, and when a budget is given each
 * remaining row gets the amount weight times budget. Weights are carried
 * as whole hundredths so that these steps are exact.
 */
module Allocation {
  import opened Results
  import opened Quant

  /**
   * `np.round(x, 2)` in hundredths: the integer nearest to 100x, and the
   * even one of the two when 100x lies exactly half-way between them.
   */
  function RoundHundredths(x: real): (h: int)
    ensures x * 100.0 - 0.5 <= h as real <= x * 100.0 + 0.5
    ensures (h as real - x * 100.0 == 0.5 || x * 100.0 - h as real == 0.5) ==> h % 2 == 0
  {
    var y := x * 100.0;
    var f := y.Floor;
    var frac := y - f as real;
    if frac < 0.5 then f
    else if frac > 0.5 then f + 1
    else if f % 2 == 0 then f
    else f + 1
  }

  /** Only one integer is within half a hundredth of 100x with ties broken to even. */
  lemma RoundingIsUnique(x: real, h: int)
    requires x * 100.0 - 0.5 <= h as real <= x * 100.0 + 0.5
    requires (h as real - x * 100.0 == 0.5 || x * 100.0 - h as real == 0.5) ==> h % 2 == 0
    ensures h == RoundHundredths(x)
  {
  }

  /** Rounding never reverses the order of two weights. */
  lemma RoundingIsMonotone(x: real, y: real)
    requires x <= y
    ensures RoundHundredths(x) <= RoundHundredths(y)
  {
  }

  /** A weight inside the solver's bounds rounds to between 0 and 100 hundredths. */
  lemma RoundingKeepsUnitInterval(x: real)
    requires 0.0 <= x <= 1.0
    ensures 0 <= RoundHundredths(x) <= 100
  {
  }

  /** One row of the result table; `weight` is in hundredths. */
  datatype Entry = Entry(ticker: string, weight: int, amount: Option<real>)

  /** The currency amount for a weight given in hundredths. */
  function AmountOf(weight: int, budget: real): real
  {
    (weight as real / 100.0) * budget
  }

  /** `pd.DataFrame({'ticker': columns, 'weight': np.round(x, 2)})`. */
  function Tabulate(tickers: seq<string>, x: seq<real>): (es: seq<Entry>)
    requires |tickers| == |x|
    ensures |es| == |x|
    ensures forall i :: 0 <= i < |x| ==> es[i] == Entry(tickers[i], RoundHundredths(x[i]), None)
  {
    seq(|x|, i requires 0 <= i < |x| => Entry(tickers[i], RoundHundredths(x[i]), None))
  }

  /** Tabulating two ticker lists one after the other gives the two tables one after the other. */
  lemma TabulateAppend(t1: seq<string>, x1: seq<real>, t2: seq<string>, x2: seq<real>)
    requires |t1| == |x1| && |t2| == |x2|
    ensures Tabulate(t1 + t2, x1 + x2) == Tabulate(t1, x1) + Tabulate(t2, x2)
  {
    var a, b := Tabulate(t1, x1), Tabulate(t2, x2);
    assert forall i :: 0 <= i < |x1| + |x2| ==> Tabulate(t1 + t2, x1 + x2)[i] == (a + b)[i] by {
      forall i | 0 <= i < |x1| + |x2|
        ensures Tabulate(t1 + t2, x1 + x2)[i] == (a + b)[i]
      {
        if i >= |x1| {
          assert (t1 + t2)[i] == t2[i - |x1|] && (x1 + x2)[i] == x2[i - |x1|];
        }
      }
    }
  }

  /** A solver answer inside the long-only bounds is tabulated with weights between 0.00 and 1.00. */
  lemma TabulatedWeightsInUnitInterval(tickers: seq<string>, x: seq<real>)
    requires |tickers| == |x| && Feasible(x, LongOnlyBounds(|x|))
    ensures forall i :: 0 <= i < |x| ==> 0 <= Tabulate(tickers, x)[i].weight <= 100
  {
    forall i | 0 <= i < |x|
      ensures 0 <= Tabulate(tickers, x)[i].weight <= 100
    {
      RoundingKeepsUnitInterval(x[i]);
    }
  }

  /** `df[df['weight'] > 0]`. */
  function KeepPositive(es: seq<Entry>): (r: seq<Entry>)
    ensures |r| <= |es|
    ensures forall e :: e in r ==> e in es && e.weight >= 1
    ensures forall e :: e in es && e.weight > 0 ==> e in r
  {
    if |es| == 0 then []
    else (if es[0].weight > 0 then [es[0]] else []) + KeepPositive(es[1..])
  }

  /** `df['amount'] = df['weight'] * budget` when the budget is non-zero. */
  function AttachAmounts(es: seq<Entry>, budget: real): (r: seq<Entry>)
    ensures |r| == |es|
    ensures forall i :: 0 <= i < |es| ==> r[i].ticker == es[i].ticker && r[i].weight == es[i].weight
    ensures budget == 0.0 ==> r == es
    ensures budget != 0.0 ==> forall i :: 0 <= i < |es| ==> r[i].amount == Some(AmountOf(es[i].weight, budget))
  {
    if budget == 0.0 then es
    else seq(|es|, i requires 0 <= i < |es| => es[i].(amount := Some(AmountOf(es[i].weight, budget))))
  }

  /** The amount a row receives, as the report shows it. */
  function AmountFor(weight: int, budget: real): Option<real>
  {
    if budget == 0.0 then None else Some(AmountOf(weight, budget))
  }

  /** Lines 80-87 of `portfolio`: round, pair with tickers, filter, attach amounts. */
  function Report(tickers: seq<string>, x: seq<real>, budget: real): (r: seq<Entry>)
    requires |tickers| == |x|
    ensures |r| <= |x|
    ensures forall e :: e in r ==> e.weight >= 1 && e.amount == AmountFor(e.weight, budget)
    ensures forall e :: e in r ==>
              exists i :: 0 <= i < |x| && e.ticker == tickers[i] && e.weight == RoundHundredths(x[i])
    ensures forall i :: 0 <= i < |x| && RoundHundredths(x[i]) > 0 ==>
              Entry(tickers[i], RoundHundredths(x[i]), AmountFor(RoundHundredths(x[i]), budget)) in r
  {
    var kept := KeepPositive(Tabulate(tickers, x));
    var r := AttachAmounts(kept, budget);
    assert forall j :: 0 <= j < |r| ==> r[j] == Entry(kept[j].ticker, kept[j].weight, AmountFor(kept[j].weight, budget)) by {
      forall j | 0 <= j < |r|
        ensures r[j] == Entry(kept[j].ticker, kept[j].weight, AmountFor(kept[j].weight, budget))
      {
        assert kept[j] in kept;
      }
    }
    assert forall i :: 0 <= i < |x| && RoundHundredths(x[i]) > 0 ==>
             Entry(tickers[i], RoundHundredths(x[i]), AmountFor(RoundHundredths(x[i]), budget)) in r by {
      forall i | 0 <= i < |x| && RoundHundredths(x[i]) > 0
        ensures Entry(tickers[i], RoundHundredths(x[i]), AmountFor(RoundHundredths(x[i]), budget)) in r
      {
        var e := Tabulate(tickers, x)[i];
        assert e in Tabulate(tickers, x);
        var j :| 0 <= j < |kept| && kept[j] == e;
        assert r[j] == Entry(tickers[i], RoundHundredths(x[i]), AmountFor(RoundHundredths(x[i]), budget));
      }
    }
    r
  }

  /**
   * `portfolio` end to end with the statistics and the solver supplied:
   * the solver is handed the problem `Setup` builds, and its answer is
   * turned into the report.
   */
  function Portfolio(tickers: seq<string>, mu: seq<real>, methodName: string, riskFreeRate: real,
                     budget: real, solve: Problem -> seq<real>): (r: Result<seq<Entry>, PortfolioError>)
    requires |tickers| == |mu|
    requires forall p :: |solve(p)| == |p.x0|
    ensures r.Err? <==> |tickers| == 0
    ensures r.Ok? ==> forall e :: e in r.value ==> e.weight >= 1 && e.amount == AmountFor(e.weight, budget)
    ensures r.Ok? ==> forall e :: e in r.value ==> e.ticker in tickers
    ensures r.Ok? ==> Setup(mu, methodName, riskFreeRate).Ok?
    ensures r.Ok? ==> r.value == Report(tickers, solve(Setup(mu, methodName, riskFreeRate).value), budget)
    ensures r.Ok? ==> forall i :: 0 <= i < |tickers| && RoundHundredths(solve(Setup(mu, methodName, riskFreeRate).value)[i]) > 0 ==>
              var h := RoundHundredths(solve(Setup(mu, methodName, riskFreeRate).value)[i]);
              Entry(tickers[i], h, AmountFor(h, budget)) in r.value
  {
    match Setup(mu, methodName, riskFreeRate)
    case Err(e) => Err(e)
    case Ok(problem) => Ok(Report(tickers, solve(problem), budget))
  }

  lemma {:induction false} KeepPositiveAppend(a: seq<Entry>, b: seq<Entry>)
    ensures KeepPositive(a + b) == KeepPositive(a) + KeepPositive(b)
  {
    if |a| == 0 {
      assert a + b == b;
    } else {
      assert (a + b)[1..] == a[1..] + b;
      KeepPositiveAppend(a[1..], b);
    }
  }

  /** Filtering twice is filtering once. */
  lemma {:induction false} KeepPositiveIdempotent(es: seq<Entry>)
    ensures KeepPositive(KeepPositive(es)) == KeepPositive(es)
  {
    if |es| > 0 {
      var head := if es[0].weight > 0 then [es[0]] else [];
      KeepPositiveAppend(head, KeepPositive(es[1..]));
      KeepPositiveIdempotent(es[1..]);
      if es[0].weight > 0 {
        assert head[1..] == [];
      }
    }
  }

  /**
   * The report of a concatenation is the concatenation of the reports: rows
   * keep the relative order of the tickers, and each row depends only on its
   * own ticker and weight.
   */
  lemma ReportAppend(t1: seq<string>, x1: seq<real>, t2: seq<string>, x2: seq<real>, budget: real)
    requires |t1| == |x1| && |t2| == |x2|
    ensures Report(t1 + t2, x1 + x2, budget) == Report(t1, x1, budget) + Report(t2, x2, budget)
  {
    var a := Tabulate(t1, x1);
    var b := Tabulate(t2, x2);
    TabulateAppend(t1, x1, t2, x2);
    KeepPositiveAppend(a, b);
    AttachAmountsAppend(KeepPositive(a), KeepPositive(b), budget);
  }

  lemma AttachAmountsAppend(a: seq<Entry>, b: seq<Entry>, budget: real)
    ensures AttachAmounts(a + b, budget) == AttachAmounts(a, budget) + AttachAmounts(b, budget)
  {
  }

  /** Sum of the weights of a list of rows, in hundredths. */
  function WeightTotal(es: seq<Entry>): int
  {
    if |es| == 0 then 0 else es[0].weight + WeightTotal(es[1..])
  }

  /** Sum of the amounts of a list of rows, a missing amount counting as zero. */
  function AmountTotal(es: seq<Entry>): real
  {
    if |es| == 0 then 0.0
    else (match es[0].amount case Some(a) => a case None => 0.0) + AmountTotal(es[1..])
  }

  /** Dropping non-positive rows can only raise the total weight. */
  lemma {:induction false} KeepPositiveTotal(es: seq<Entry>)
    ensures WeightTotal(KeepPositive(es)) >= WeightTotal(es)
  {
    if |es| > 0 {
      var head := if es[0].weight > 0 then [es[0]] else [];
      KeepPositiveTotal(es[1..]);
      assert KeepPositive(es) == head + KeepPositive(es[1..]);
      if es[0].weight > 0 {
        assert (head + KeepPositive(es[1..]))[1..] == KeepPositive(es[1..]);
      } else {
        assert head + KeepPositive(es[1..]) == KeepPositive(es[1..]);
      }
    }
  }

  /**
   * No renormalisation: the amounts add up to the budget scaled by the
   * rows' total weight, whatever that total is.
   */
  lemma {:induction false} AmountsFollowWeights(es: seq<Entry>, budget: real)
    requires budget != 0.0
    ensures AmountTotal(AttachAmounts(es, budget)) == (WeightTotal(es) as real / 100.0) * budget
  {
    if |es| > 0 {
      var r := AttachAmounts(es, budget);
      assert r[1..] == AttachAmounts(es[1..], budget);
      AmountsFollowWeights(es[1..], budget);
      calc {
        AmountTotal(r);
        AmountOf(es[0].weight, budget) + AmountTotal(r[1..]);
        (es[0].weight as real / 100.0) * budget + (WeightTotal(es[1..]) as real / 100.0) * budget;
        ((es[0].weight + WeightTotal(es[1..])) as real / 100.0) * budget;
      }
    }
  }

  /** Three equal weights of one third each are reported as 0.33 each, 0.99 in all. */
  lemma ThirdsReportBelowOne()
    ensures WeightTotal(Report(["a", "b", "c"], [1.0 / 3.0, 1.0 / 3.0, 1.0 / 3.0], 0.0)) == 99
  {
  }

  /** A weight of 0.40 with a budget of 1000 receives exactly 400. */
  lemma FortyPercentOfThousand()
    ensures Report(["a"], [0.4], 1000.0) == [Entry("a", 40, Some(400.0))]
  {
  }

  /** With a single asset, any feasible solver answer is the whole portfolio: one row at 1.00. */
  lemma SingleAssetGetsEverything(ticker: string, x: seq<real>, budget: real)
    requires Feasible(x, LongOnlyBounds(1))
    ensures Report([ticker], x, budget) == [Entry(ticker, 100, AmountFor(100, budget))]
  {
    assert Sum(x) == x[0] by {
      assert x[1..] == [];
    }
    assert RoundHundredths(x[0]) == 100;
    var es := Tabulate([ticker], x);
    assert es == [Entry(ticker, 100, None)];
    assert KeepPositive(es) == es by {
      assert es[1..] == [];
    }
  }
}
