/**
 * Back-adjustment of one ticker's closing prices so that the series stays
 * continuous across corporate actions (splits, dividends, rights issues).
 *
 * Bars are ordered oldest to newest. For bar t the ratio is the next bar's
 * recorded previous close divided by bar t's adjusted close, 1.0 when either
 * value is missing (which always happens at the newest bar). The multiplier
 * of bar t is the product of the ratios from t to the newest bar, computed as
 * a cumulative product over the reversed ratio column, and the adjusted close
 * is the raw close times that multiplier.
 */
module Continuity {
  import opened Results

  /** One downloaded bar, restricted to the columns the adjustment selects. */
  datatype Bar = Bar(date: int, close: real, adjClose: Option<real>, yesterday: Option<real>)

  /** One row of an adjusted series: the date and the adjusted close. */
  datatype Point = Point(date: int, price: real)

  /** The `yesterday` column shifted up by one row: missing past the newest bar. */
  function NextYesterday(bars: seq<Bar>, t: nat): Option<real>
    requires t < |bars|
  {
    if t + 1 < |bars| then bars[t + 1].yesterday else None
  }

  /**
   * The ratio of bar t is a real number or a filled NaN. Dividing a non-zero
   * previous close by a zero adjusted close gives an infinity, which the fill
   * does not replace; such input is outside this model.
   */
  predicate RatioDefined(bars: seq<Bar>, t: nat)
    requires t < |bars|
  {
    match (NextYesterday(bars, t), bars[t].adjClose)
    case (Some(y), Some(a)) => a != 0.0 || y == 0.0
    case _ => true
  }

  predicate RatiosDefined(bars: seq<Bar>)
  {
    forall t :: 0 <= t < |bars| ==> RatioDefined(bars, t)
  }

  /** The ratio column after `fillna(1.0)`. */
  function Ratio(bars: seq<Bar>, t: nat): (r: real)
    requires t < |bars| && RatioDefined(bars, t)
    ensures t == |bars| - 1 ==> r == 1.0
    ensures NextYesterday(bars, t).None? || bars[t].adjClose.None? || bars[t].adjClose == Some(0.0) ==> r == 1.0
    ensures NextYesterday(bars, t).Some? && bars[t].adjClose.Some? && bars[t].adjClose.value != 0.0 ==>
              r * bars[t].adjClose.value == NextYesterday(bars, t).value
  {
    match (NextYesterday(bars, t), bars[t].adjClose)
    case (Some(y), Some(a)) =>
      if a == 0.0 then 1.0  // 0/0 is NaN, which the fill turns into 1.0
      else y / a
    case _ => 1.0
  }

  function Ratios(bars: seq<Bar>): (rs: seq<real>)
    requires RatiosDefined(bars)
    ensures |rs| == |bars|
    ensures forall t :: 0 <= t < |bars| ==> rs[t] == Ratio(bars, t)
  {
    seq(|bars|, t requires 0 <= t < |bars| => Ratio(bars, t))
  }

  /** The product of a sequence of factors, 1.0 for none. */
  function Product(xs: seq<real>): real
  {
    if |xs| == 0 then 1.0 else xs[0] * Product(xs[1..])
  }

  function Reverse(xs: seq<real>): (r: seq<real>)
    ensures |r| == |xs|
    ensures forall i :: 0 <= i < |xs| ==> r[i] == xs[|xs| - 1 - i]
  {
    if |xs| == 0 then [] else Reverse(xs[1..]) + [xs[0]]
  }

  /** Running products seeded with `acc`, as `cumprod` computes them. */
  function CumProdFrom(acc: real, xs: seq<real>): (r: seq<real>)
    ensures |r| == |xs|
    decreases |xs|
  {
    if |xs| == 0 then [] else [acc * xs[0]] + CumProdFrom(acc * xs[0], xs[1..])
  }

  function CumProd(xs: seq<real>): seq<real>
  {
    CumProdFrom(1.0, xs)
  }

  /** `s.iloc[::-1].cumprod().iloc[::-1]`: a column reversed, cumulatively multiplied, reversed back. */
  function ReverseCumProd(xs: seq<real>): seq<real>
  {
    Reverse(CumProd(Reverse(xs)))
  }

  lemma {:induction false} ProductAppend(a: seq<real>, b: seq<real>)
    ensures Product(a + b) == Product(a) * Product(b)
  {
    if |a| == 0 {
      assert a + b == b;
    } else {
      assert (a + b)[1..] == a[1..] + b;
      ProductAppend(a[1..], b);
      calc {
        Product(a + b);
        a[0] * Product(a[1..] + b);
        a[0] * (Product(a[1..]) * Product(b));
        (a[0] * Product(a[1..])) * Product(b);
      }
    }
  }

  lemma {:induction false} ProductReverse(xs: seq<real>)
    ensures Product(Reverse(xs)) == Product(xs)
  {
    if |xs| > 0 {
      var last := [xs[0]];
      assert Product(last) == xs[0] by {
        assert last[1..] == [];
      }
      ProductAppend(Reverse(xs[1..]), last);
      ProductReverse(xs[1..]);
    }
  }

  /** Entry i of a running product is the seed times the product of the first i + 1 factors. */
  lemma {:induction false} CumProdFromAt(acc: real, xs: seq<real>, i: nat)
    requires i < |xs|
    ensures CumProdFrom(acc, xs)[i] == acc * Product(xs[..i + 1])
    decreases i
  {
    if i == 0 {
      assert xs[..1][1..] == [];
    } else {
      CumProdFromAt(acc * xs[0], xs[1..], i - 1);
      assert xs[..i + 1][1..] == xs[1..][..i];
      calc {
        CumProdFrom(acc, xs)[i];
        CumProdFrom(acc * xs[0], xs[1..])[i - 1];
        (acc * xs[0]) * Product(xs[1..][..i]);
        acc * (xs[0] * Product(xs[..i + 1][1..]));
      }
    }
  }

  /** Entry t of a reversed cumulative product is the product of entry t and every later entry. */
  lemma ReverseCumProdAt(xs: seq<real>, t: nat)
    requires t < |xs|
    ensures |ReverseCumProd(xs)| == |xs|
    ensures ReverseCumProd(xs)[t] == Product(xs[t..])
  {
    var n := |xs|;
    var rev := Reverse(xs);
    assert ReverseCumProd(xs)[t] == CumProd(rev)[n - 1 - t];
    CumProdFromAt(1.0, rev, n - 1 - t);
    assert rev[..n - t] == Reverse(xs[t..]);
    ProductReverse(xs[t..]);
  }

  lemma ReverseCumProdIsSuffixProducts(xs: seq<real>)
    ensures |ReverseCumProd(xs)| == |xs|
    ensures forall t :: 0 <= t < |xs| ==> ReverseCumProd(xs)[t] == Product(xs[t..])
  {
    forall t | 0 <= t < |xs|
      ensures ReverseCumProd(xs)[t] == Product(xs[t..])
    {
      ReverseCumProdAt(xs, t);
    }
  }

  /**
   * The multiplier column computed from the ratio column: multiplier t is the
   * product of the ratios of bar t and every newer bar.
   */
  function Multipliers(bars: seq<Bar>): (m: seq<real>)
    requires RatiosDefined(bars)
    ensures |m| == |bars|
    ensures forall t {:trigger Product(Ratios(bars)[t..])} :: 0 <= t < |bars| ==> m[t] == Product(Ratios(bars)[t..])
  {
    var rs := Ratios(bars);
    ReverseCumProdIsSuffixProducts(rs);
    ReverseCumProd(rs)
  }

  /**
   * The adjusted series: same length and dates as the input, each close
   * scaled by the product of its own and all newer ratios.
   */
  function Adjust(bars: seq<Bar>): (ps: seq<Point>)
    requires RatiosDefined(bars)
    ensures |ps| == |bars|
    ensures forall t :: 0 <= t < |bars| ==> ps[t].date == bars[t].date
  {
    var m := Multipliers(bars);
    seq(|bars|, t requires 0 <= t < |bars| => Point(bars[t].date, bars[t].close * m[t]))
  }

  /** Adjusted close t is the raw close times the product of the ratios of bar t and every newer bar. */
  lemma AdjustedClose(bars: seq<Bar>, t: nat)
    requires RatiosDefined(bars) && t < |bars|
    ensures Adjust(bars)[t].price == bars[t].close * Product(Ratios(bars)[t..])
  {
  }

  /** The newest bar anchors the series: its multiplier is 1 and its close is kept. */
  lemma NewestBarAnchors(bars: seq<Bar>)
    requires RatiosDefined(bars) && |bars| > 0
    ensures Multipliers(bars)[|bars| - 1] == 1.0
    ensures Adjust(bars)[|bars| - 1].price == bars[|bars| - 1].close
  {
  }

  /** Each multiplier is its own ratio times the next newer multiplier. */
  lemma MultiplierRecurrence(bars: seq<Bar>, t: nat)
    requires RatiosDefined(bars) && t + 1 < |bars|
    ensures Multipliers(bars)[t] == Ratio(bars, t) * Multipliers(bars)[t + 1]
  {
    var rs := Ratios(bars);
    assert rs[t..][1..] == rs[t + 1..];
    assert Multipliers(bars)[t] == Product(rs[t..]);
    assert Multipliers(bars)[t + 1] == Product(rs[t + 1..]);
  }

  /** Multiplier i is the product of the ratios from i up to j times multiplier j. */
  lemma {:induction false} MultiplierChain(bars: seq<Bar>, i: nat, j: nat)
    requires RatiosDefined(bars) && i <= j < |bars|
    ensures Multipliers(bars)[i] == Product(Ratios(bars)[i..j]) * Multipliers(bars)[j]
    decreases j - i
  {
    var rs := Ratios(bars);
    if i == j {
      assert rs[i..j] == [];
    } else {
      MultiplierChain(bars, i + 1, j);
      MultiplierRecurrence(bars, i);
      assert rs[i..j][1..] == rs[i + 1..j];
      calc {
        Multipliers(bars)[i];
        rs[i] * Multipliers(bars)[i + 1];
        rs[i] * (Product(rs[i + 1..j]) * Multipliers(bars)[j]);
        (rs[i] * Product(rs[i + 1..j])) * Multipliers(bars)[j];
      }
    }
  }

  /** A bar whose successor has no recorded previous close contributes no correction. */
  lemma MissingYesterdayAddsNothing(bars: seq<Bar>, t: nat)
    requires RatiosDefined(bars) && t + 1 < |bars| && bars[t + 1].yesterday.None?
    ensures Ratio(bars, t) == 1.0
    ensures Multipliers(bars)[t] == Multipliers(bars)[t + 1]
  {
    MultiplierRecurrence(bars, t);
  }

  /** No corporate action anywhere: each previous close equals the prior bar's adjusted close. */
  predicate NoCorporateActions(bars: seq<Bar>)
  {
    forall t :: 0 <= t < |bars| - 1 ==> bars[t + 1].yesterday == bars[t].adjClose
  }

  lemma {:induction false} ProductOfOnes(xs: seq<real>)
    requires forall i :: 0 <= i < |xs| ==> xs[i] == 1.0
    ensures Product(xs) == 1.0
  {
    if |xs| > 0 {
      ProductOfOnes(xs[1..]);
    }
  }

  /** A series without corporate actions adjusts to itself. */
  lemma UnadjustedSeriesIsFixed(bars: seq<Bar>)
    requires NoCorporateActions(bars)
    ensures RatiosDefined(bars)
    ensures forall t :: 0 <= t < |bars| ==> Multipliers(bars)[t] == 1.0
    ensures forall t :: 0 <= t < |bars| ==> Adjust(bars)[t] == Point(bars[t].date, bars[t].close)
  {
    forall t | 0 <= t < |bars|
      ensures RatioDefined(bars, t)
    {
      if t + 1 < |bars| {
        assert bars[t + 1].yesterday == bars[t].adjClose;
      }
    }
    assert RatiosDefined(bars);
    var rs := Ratios(bars);
    forall t | 0 <= t < |bars|
      ensures Multipliers(bars)[t] == 1.0
    {
      if t + 1 < |bars| {
        assert bars[t + 1].yesterday == bars[t].adjClose;
      }
      assert forall i :: 0 <= i < |rs[t..]| ==> rs[t..][i] == rs[t + i];
      ProductOfOnes(rs[t..]);
    }
  }

  /**
   * Continuity: when bar t's adjusted close is its own close (no vendor
   * adjustment yet), the day-over-day change of the adjusted series from t to
   * t + 1 equals close[t + 1] against the previous close recorded on bar t + 1,
   * which is what the exchange reports as that day's move.
   */
  lemma AdjustedStepMatchesReportedMove(bars: seq<Bar>, t: nat)
    requires RatiosDefined(bars) && t + 1 < |bars|
    requires bars[t].adjClose == Some(bars[t].close)
    requires bars[t + 1].yesterday.Some?
    ensures Adjust(bars)[t].price == bars[t + 1].yesterday.value * Multipliers(bars)[t + 1]
    ensures Adjust(bars)[t].price * bars[t + 1].close ==
            Adjust(bars)[t + 1].price * bars[t + 1].yesterday.value
  {
    var y := bars[t + 1].yesterday.value;
    var c := bars[t].close;
    var m := Multipliers(bars);
    MultiplierRecurrence(bars, t);
    assert RatioDefined(bars, t);
    assert c * Ratio(bars, t) == y;
    calc {
      Adjust(bars)[t].price;
      c * m[t];
      c * (Ratio(bars, t) * m[t + 1]);
      (c * Ratio(bars, t)) * m[t + 1];
      y * m[t + 1];
    }
    calc {
      Adjust(bars)[t].price * bars[t + 1].close;
      (y * m[t + 1]) * bars[t + 1].close;
      (bars[t + 1].close * m[t + 1]) * y;
      Adjust(bars)[t + 1].price * y;
    }
  }
}
