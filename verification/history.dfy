/**
 * The `history` entry point of the data module: for every downloaded ticker it
 * keeps the close column renamed after the ticker, back-adjusts it, drops the
 * helper columns, and appends the block below the frame built so far.
 */
module History {
  import opened Results
  import opened Values
  import opened Continuity

  /** One entry of the downloader's answer: a ticker and its bars, oldest first. */
  datatype TickerData = TickerData(ticker: string, bars: seq<Bar>)

  /** One ticker's processed frame: the date index and a single value column named after the ticker. */
  datatype Block = Block(column: string, points: seq<Point>)

  /**
   * One row of the stacked frame: `column` holds `price` and every other
   * column of the frame is NaN on this row.
   */
  datatype Row = Row(date: int, column: string, price: real)

  /** A date-indexed frame: its column names in order, and its rows. */
  datatype Frame = Frame(columns: seq<string>, rows: seq<Row>)

  /** `symbols['tsetmc']` raises `KeyError` when the key is absent. */
  datatype HistoryError = MissingTsetmc

  predicate AllRatiosDefined(ds: seq<TickerData>)
  {
    forall i :: 0 <= i < |ds| ==> RatiosDefined(ds[i].bars)
  }

  /** The per-ticker step: select, rename, adjust, drop the helper columns. */
  function AdjustTicker(d: TickerData): (b: Block)
    requires RatiosDefined(d.bars)
    ensures b.column == d.ticker
    ensures |b.points| == |d.bars|
    ensures forall t :: 0 <= t < |d.bars| ==> b.points[t].date == d.bars[t].date
  {
    Block(d.ticker, Adjust(d.bars))
  }

  function AdjustAll(ds: seq<TickerData>): (bs: seq<Block>)
    requires AllRatiosDefined(ds)
    ensures |bs| == |ds|
    ensures forall i :: 0 <= i < |ds| ==> bs[i] == AdjustTicker(ds[i])
  {
    seq(|ds|, i requires 0 <= i < |ds| => AdjustTicker(ds[i]))
  }

  /** A block's rows as they sit in a frame. */
  function BlockRows(b: Block): (rs: seq<Row>)
    ensures |rs| == |b.points|
  {
    seq(|b.points|, j requires 0 <= j < |b.points| => Row(b.points[j].date, b.column, b.points[j].price))
  }

  /** Column union of a row-wise concatenation: existing columns first, new ones appended. */
  function AddColumn(columns: seq<string>, c: string): seq<string>
  {
    if c in columns then columns else columns + [c]
  }

  /**
   * `pd.concat([frame, block])` along the row axis: the frame's rows are kept
   * as they are and the block's rows follow them; no row is matched on its date.
   */
  function Concat(f: Frame, b: Block): (r: Frame)
    ensures f.rows <= r.rows
    ensures |r.rows| == |f.rows| + |b.points|
    ensures forall j :: 0 <= j < |b.points| ==>
              r.rows[|f.rows| + j] == Row(b.points[j].date, b.column, b.points[j].price)
    ensures f.columns <= r.columns
    ensures forall c :: c in r.columns <==> c in f.columns || c == b.column
    ensures b.column in f.columns ==> r.columns == f.columns
    ensures b.column !in f.columns ==> r.columns == f.columns + [b.column]
  {
    Frame(AddColumn(f.columns, b.column), f.rows + BlockRows(b))
  }

  /** The loop of `history`: start from an empty frame and concatenate each block in turn. */
  function Stack(bs: seq<Block>): (r: Frame)
    ensures |r.rows| == TotalLength(bs)
    decreases |bs|
  {
    if |bs| == 0 then Frame([], [])
    else
      var init := bs[..|bs| - 1];
      TotalLengthSnoc(init, bs[|bs| - 1]);
      assert init + [bs[|bs| - 1]] == bs;
      Concat(Stack(init), bs[|bs| - 1])
  }

  /** Total number of points in a list of blocks. */
  function TotalLength(bs: seq<Block>): nat
  {
    if |bs| == 0 then 0 else |bs[0].points| + TotalLength(bs[1..])
  }

  /** Total number of bars in a download. */
  function TotalBars(ds: seq<TickerData>): nat
  {
    if |ds| == 0 then 0 else |ds[0].bars| + TotalBars(ds[1..])
  }

  /** The processing of one symbols mapping given what the downloader returns for its 'tsetmc' value. */
  function History(symbols: map<string, Value>, fetched: seq<TickerData>): (r: Result<Frame, HistoryError>)
    requires Tsetmc in symbols && Truthy(symbols[Tsetmc]) ==> AllRatiosDefined(fetched)
    ensures r.Err? <==> Tsetmc !in symbols
    ensures r.Ok? && !Truthy(symbols[Tsetmc]) ==> r.value == Frame([], [])
  {
    if Tsetmc !in symbols then Err(MissingTsetmc)
    else if !Truthy(symbols[Tsetmc]) then Ok(Frame([], []))
    else Ok(Stack(AdjustAll(fetched)))
  }

  lemma {:induction false} TotalLengthSnoc(bs: seq<Block>, b: Block)
    ensures TotalLength(bs + [b]) == TotalLength(bs) + |b.points|
  {
    if |bs| == 0 {
      assert bs + [b] == [b];
      assert [b][1..] == [];
    } else {
      assert (bs + [b])[1..] == bs[1..] + [b];
      TotalLengthSnoc(bs[1..], b);
    }
  }

  /** Stacking a prefix yields a prefix of the rows. */
  lemma {:induction false} StackPrefix(bs: seq<Block>, k: nat)
    requires k <= |bs|
    ensures Stack(bs[..k]).rows <= Stack(bs).rows
    decreases |bs|
  {
    if k < |bs| {
      var init := bs[..|bs| - 1];
      assert init[..k] == bs[..k];
      StackPrefix(init, k);
    } else {
      assert bs[..k] == bs;
    }
  }

  /**
   * Block k's rows sit, in order and unchanged, right after the rows of the
   * blocks before it.
   */
  lemma StackRowAt(bs: seq<Block>, k: nat, j: nat)
    requires k < |bs| && j < |bs[k].points|
    ensures TotalLength(bs[..k]) + j < |Stack(bs).rows|
    ensures Stack(bs).rows[TotalLength(bs[..k]) + j] ==
            Row(bs[k].points[j].date, bs[k].column, bs[k].points[j].price)
  {
    var pre := bs[..k + 1];
    assert pre[..k] == bs[..k];
    assert pre[..|pre| - 1] == bs[..k];
    assert pre[|pre| - 1] == bs[k];
    assert Stack(pre) == Concat(Stack(bs[..k]), bs[k]);
    StackPrefix(bs, k + 1);
  }

  /** Stacking keeps every ticker's column name exactly once. */
  lemma {:induction false} StackColumns(bs: seq<Block>)
    ensures forall c :: c in Stack(bs).columns <==> exists k :: 0 <= k < |bs| && bs[k].column == c
    ensures forall i, j :: 0 <= i < j < |Stack(bs).columns| ==> Stack(bs).columns[i] != Stack(bs).columns[j]
    decreases |bs|
  {
    if |bs| > 0 {
      var init := bs[..|bs| - 1];
      StackColumns(init);
      forall c | c in Stack(bs).columns
        ensures exists k :: 0 <= k < |bs| && bs[k].column == c
      {
        if c in Stack(init).columns {
          var k :| 0 <= k < |init| && init[k].column == c;
          assert bs[k].column == c;
        } else {
          assert bs[|bs| - 1].column == c;
        }
      }
      forall c | exists k :: 0 <= k < |bs| && bs[k].column == c
        ensures c in Stack(bs).columns
      {
        var k :| 0 <= k < |bs| && bs[k].column == c;
        if k < |bs| - 1 {
          assert init[k].column == c;
        }
      }
    }
  }

  lemma {:induction false} TotalBarsIsTotalLength(ds: seq<TickerData>)
    requires AllRatiosDefined(ds)
    ensures TotalLength(AdjustAll(ds)) == TotalBars(ds)
    decreases |ds|
  {
    if |ds| > 0 {
      assert AdjustAll(ds)[1..] == AdjustAll(ds[1..]);
      TotalBarsIsTotalLength(ds[1..]);
    }
  }

  /** A truthy 'tsetmc' value yields one row per downloaded bar. */
  lemma HistoryRowCount(symbols: map<string, Value>, fetched: seq<TickerData>)
    requires Tsetmc in symbols && Truthy(symbols[Tsetmc])
    requires AllRatiosDefined(fetched)
    ensures History(symbols, fetched).Ok?
    ensures |History(symbols, fetched).value.rows| == TotalBars(fetched)
  {
    var ds := fetched;
    TotalBarsIsTotalLength(ds);
  }

  /** Rows in front of ticker i's block: all bars of the tickers downloaded before it. */
  function Offset(ds: seq<TickerData>, i: nat): nat
    requires i <= |ds|
  {
    TotalBars(ds[..i])
  }

  lemma OffsetOfAdjusted(ds: seq<TickerData>, i: nat)
    requires AllRatiosDefined(ds) && i <= |ds|
    ensures TotalLength(AdjustAll(ds)[..i]) == Offset(ds, i)
  {
    var pre := ds[..i];
    assert AllRatiosDefined(pre);
    assert AdjustAll(ds)[..i] == AdjustAll(pre);
    TotalBarsIsTotalLength(pre);
  }

  /** Stacked adjusted blocks: bar t of ticker i sits at its offset with its adjusted close. */
  lemma StackedBarAt(ds: seq<TickerData>, i: nat, t: nat)
    requires AllRatiosDefined(ds) && i < |ds| && t < |ds[i].bars|
    ensures Offset(ds, i) + t < |Stack(AdjustAll(ds)).rows|
    ensures Stack(AdjustAll(ds)).rows[Offset(ds, i) + t] ==
            Row(ds[i].bars[t].date, ds[i].ticker, Adjust(ds[i].bars)[t].price)
  {
    var bs := AdjustAll(ds);
    var b := bs[i];
    assert b.column == ds[i].ticker;
    assert b.points == Adjust(ds[i].bars);
    assert b.points[t].date == ds[i].bars[t].date;
    StackRowAt(bs, i, t);
    OffsetOfAdjusted(ds, i);
  }

  /**
   * Bar t of downloaded ticker i appears in the result under the ticker's
   * column, after the bars of the tickers before it, with its date and its
   * back-adjusted close (`Continuity.AdjustedClose` says what that close is).
   */
  lemma HistoryRowAt(symbols: map<string, Value>, fetched: seq<TickerData>, i: nat, t: nat)
    requires Tsetmc in symbols && Truthy(symbols[Tsetmc])
    requires AllRatiosDefined(fetched)
    requires i < |fetched| && t < |fetched[i].bars|
    ensures History(symbols, fetched).Ok?
    ensures Offset(fetched, i) + t < |History(symbols, fetched).value.rows|
    ensures History(symbols, fetched).value.rows[Offset(fetched, i) + t] ==
            Row(fetched[i].bars[t].date,
                fetched[i].ticker,
                Adjust(fetched[i].bars)[t].price)
  {
    assert History(symbols, fetched) == Ok(Stack(AdjustAll(fetched)));
    StackedBarAt(fetched, i, t);
  }

  /** The frame's columns are exactly the downloaded tickers, each once. */
  lemma HistoryColumns(symbols: map<string, Value>, fetched: seq<TickerData>)
    requires Tsetmc in symbols && Truthy(symbols[Tsetmc])
    requires AllRatiosDefined(fetched)
    ensures History(symbols, fetched).Ok?
    ensures forall c :: c in History(symbols, fetched).value.columns <==>
              exists i :: 0 <= i < |fetched| && fetched[i].ticker == c
    ensures forall i, j :: 0 <= i < j < |History(symbols, fetched).value.columns| ==>
              History(symbols, fetched).value.columns[i] != History(symbols, fetched).value.columns[j]
  {
    var ds := fetched;
    var bs := AdjustAll(ds);
    StackColumns(bs);
    forall c | c in Stack(bs).columns
      ensures exists i :: 0 <= i < |ds| && ds[i].ticker == c
    {
      var k :| 0 <= k < |bs| && bs[k].column == c;
      assert ds[k].ticker == c;
    }
    forall c | exists i :: 0 <= i < |ds| && ds[i].ticker == c
      ensures c in Stack(bs).columns
    {
      var i :| 0 <= i < |ds| && ds[i].ticker == c;
      assert bs[i].column == c;
    }
  }
}
