/** The asset chart: account balances and holding market values sampled on
    a grid of 100 instants from 2020-01-01 to now, merged into one row per
    instant.  Account balances are reconstructed backward from the current
    balance; market values follow a forward price cursor. */
module AssetChart {
  import opened Series
  import opened MoneyCollection
  import opened StockCollection

  /** `new Date("2020-01-01").getTime()`. */
  const GridStart: real := 1577836800000.0

  const GridSize: nat := 100

  /** The sampling grid from 2020-01-01 to `now`. */
  function AssetGrid(now: int): (xs: seq<real>)
    ensures |xs| == GridSize
    ensures xs[0] == GridStart && xs[GridSize - 1] == now as real
    ensures forall i :: 0 <= i < GridSize - 1 ==> xs[i + 1] - xs[i] == (now as real - GridStart) / 99.0
    ensures GridStart < now as real ==> StrictlyAscending(xs)
  {
    EvenGrid(GridStart, now as real, GridSize)
  }

  // ---------------------------------------------------------------------
  // Balance reconstruction (`get_money_series`)
  // ---------------------------------------------------------------------

  /** Transactions are stored under their date as primary key, so they come
      back in ascending date order. */
  predicate DatesAscending(ts: seq<Transaction>) {
    forall i, j :: 0 <= i < j < |ts| ==> ts[i].date <= ts[j].date
  }

  /** The transactions dated at or after `x`, in order. */
  function Since(ts: seq<Transaction>, x: real): seq<Transaction> {
    if |ts| == 0 then []
    else Since(ts[..|ts| - 1], x) + (if ts[|ts| - 1].date as real >= x then [ts[|ts| - 1]] else [])
  }

  /** The closed form of the reconstruction: at every grid point but the last
      the balance is the anchor minus the amounts dated at or after it; the
      last point is the anchor itself, and an empty grid yields `[anchor]`. */
  function BalanceSeries(anchor: real, ts: seq<Transaction>, xs: seq<real>): seq<real> {
    if |xs| == 0 then [anchor]
    else
      seq(|xs|, j requires 0 <= j < |xs| =>
        if j == |xs| - 1 then anchor else anchor - Total(Since(ts, xs[j])))
  }

  /** On a history split at `m` by `x`, the part dated at or after `x` is the
      suffix from `m`. */
  lemma {:induction false} SinceSplit(ts: seq<Transaction>, m: nat, x: real)
    requires m <= |ts|
    requires forall p :: 0 <= p < m ==> (ts[p].date as real) < x
    requires forall p :: m <= p < |ts| ==> x <= ts[p].date as real
    ensures Since(ts, x) == ts[m..]
  {
    if |ts| > m {
      var init := ts[..|ts| - 1];
      forall p | 0 <= p < m ensures (init[p].date as real) < x {
        assert init[p] == ts[p];
      }
      forall p | m <= p < |init| ensures x <= init[p].date as real {
        assert init[p] == ts[p];
      }
      SinceSplit(init, m, x);
      var last := ts[|ts| - 1];
      assert x <= last.date as real;
      assert Since(ts, x) == init[m..] + [last];
      assert ts[m..] == init[m..] + [last];
    } else {
      SinceNone(ts, x);
      assert ts[m..] == [];
    }
  }

  lemma {:induction false} SinceNone(ts: seq<Transaction>, x: real)
    requires forall p :: 0 <= p < |ts| ==> (ts[p].date as real) < x
    ensures Since(ts, x) == []
  {
    if |ts| > 0 {
      var init := ts[..|ts| - 1];
      forall p | 0 <= p < |init| ensures (init[p].date as real) < x {
        assert init[p] == ts[p];
      }
      SinceNone(init, x);
    }
  }

  /** The values pushed so far: the anchor, then one value per grid point
      passed, walking back from the last point. */
  ghost predicate Pushed(anchor: real, ts: seq<Transaction>, xs: seq<real>, ys: seq<real>) {
    && |ys| > 0 && ys[0] == anchor
    && forall k :: 1 <= k < |ys| && k < |xs| ==> ys[k] == anchor - Total(Since(ts, xs[|xs| - 1 - k]))
  }

  /** Every transaction from `from` on is dated at or after every grid point
      below `ix`. */
  ghost predicate Passed(ts: seq<Transaction>, xs: seq<real>, from: int, ix: int) {
    forall p, j :: 0 <= from <= p < |ts| && 0 <= j < ix && j < |xs| ==> xs[j] <= ts[p].date as real
  }

  /** Pushing the running balance for grid point `j`, when the transactions
      not yet undone are exactly those before `m`, keeps the pushed values
      right. */
  lemma PushStep(anchor: real, ts: seq<Transaction>, xs: seq<real>, ys: seq<real>, m: nat, j: nat, balance: real)
    requires DatesAscending(ts)
    requires m <= |ts| && j < |xs| && |ys| == |xs| - 1 - j
    requires Pushed(anchor, ts, xs, ys)
    requires balance == anchor - Total(ts[m..])
    requires m > 0 ==> (ts[m - 1].date as real) < xs[j]
    requires Passed(ts, xs, m, j + 1)
    ensures Pushed(anchor, ts, xs, ys + [balance])
  {
    forall p | 0 <= p < m ensures (ts[p].date as real) < xs[j] {
      assert ts[p].date <= ts[m - 1].date;
    }
    SinceSplit(ts, m, xs[j]);
    assert balance == anchor - Total(Since(ts, xs[j]));
    var ys' := ys + [balance];
    forall k | 1 <= k < |ys'| && k < |xs| ensures ys'[k] == anchor - Total(Since(ts, xs[|xs| - 1 - k])) {
      if k < |ys| {
        assert ys'[k] == ys[k];
      } else {
        assert k == |ys| && |xs| - 1 - k == j;
      }
    }
  }

  /** Undoing transaction `it` takes its amount off the running balance. */
  lemma UndoAmount(anchor: real, ts: seq<Transaction>, it: nat, balance: real)
    requires it < |ts| && balance == anchor - Total(ts[it + 1..])
    ensures balance - ts[it].amount == anchor - Total(ts[it..])
  {
    TotalCons(ts[it], ts[it + 1..]);
    assert ts[it..] == [ts[it]] + ts[it + 1..];
  }

  /** Undoing transaction `it`: every grid point the cursor has not passed
      is at or before it. */
  lemma UndoStep(ts: seq<Transaction>, xs: seq<real>, it: nat, ix: nat)
    requires NonDecreasing(xs)
    requires it < |ts| && ix < |xs|
    requires Passed(ts, xs, it + 1, ix)
    requires ix == 0 || xs[ix - 1] <= ts[it].date as real || xs[ix] <= ts[it].date as real
    ensures Passed(ts, xs, it, ix)
  {
    forall p, j | it <= p < |ts| && 0 <= j < ix ensures xs[j] <= ts[p].date as real {
      if p == it {
        assert xs[j] <= xs[ix - 1] <= xs[ix];
      }
    }
  }

  /** `get_money_series` for one account: cursor `ix` walks the grid and `it`
      the transactions, both backward from the end, pushing the running
      balance for each grid point passed and undoing each transaction. */
  method AccountSeries(anchor: real, ts: seq<Transaction>, xs: seq<real>) returns (series: seq<real>)
    requires DatesAscending(ts)
    requires NonDecreasing(xs)
    ensures series == BalanceSeries(anchor, ts, xs)
  {
    var n := |xs|;
    var balance := anchor;
    var ys := [balance];
    var ix := n - 1;
    var it := |ts|;
    while ix >= 0
      invariant 0 <= it <= |ts|
      invariant -1 <= ix < n && (n > 0 ==> 0 <= ix)
      invariant |ys| == n - ix
      invariant balance == anchor - Total(ts[it..])
      invariant Pushed(anchor, ts, xs, ys)
      invariant Passed(ts, xs, it, ix)
      decreases it
    {
      var x := xs[ix];
      it := it - 1;
      if it < 0 {
        break;
      }
      var val := ts[it];
      if x > val.date as real {
        ys, ix := PushLater(anchor, ts, xs, ys, ix, it + 1, balance);
      }
      UndoStep(ts, xs, it, ix);
      UndoAmount(anchor, ts, it, balance);
      balance := balance - val.amount;
    }
    assert n > 0 ==> balance == anchor - Total(ts) by {
      assert ts[0..] == ts;
    }
    if n > 0 {
      ys := PushRemaining(anchor, ts, xs, ys, balance);
    }
    series := seq(|ys|, k requires 0 <= k < |ys| => ys[|ys| - 1 - k]);
    ReversedIsBalanceSeries(anchor, ts, xs, ys, series);
  }

  /** The inner loop: step the grid cursor back over every point still later
      than the transaction `m - 1`, pushing the running balance for each. */
  method PushLater(anchor: real, ts: seq<Transaction>, xs: seq<real>, ys: seq<real>, ix: int, m: nat,
                   balance: real) returns (ys': seq<real>, ix': int)
    requires DatesAscending(ts)
    requires 0 <= ix < |xs| && |ys| == |xs| - ix
    requires 0 < m <= |ts| && (ts[m - 1].date as real) < xs[ix]
    requires balance == anchor - Total(ts[m..])
    requires Pushed(anchor, ts, xs, ys) && Passed(ts, xs, m, ix)
    ensures 0 <= ix' <= ix && |ys'| == |xs| - ix'
    ensures Pushed(anchor, ts, xs, ys') && Passed(ts, xs, m, ix')
    ensures ix' == 0 || xs[ix' - 1] <= ts[m - 1].date as real
  {
    ys', ix' := ys, ix;
    var d := ts[m - 1].date as real;
    while ix' >= 1 && xs[ix' - 1] > d
      invariant 0 <= ix' <= ix && |ys'| == |xs| - ix'
      invariant Pushed(anchor, ts, xs, ys') && Passed(ts, xs, m, ix')
      invariant d < xs[ix']
    {
      ix' := ix' - 1;
      PushStep(anchor, ts, xs, ys', m, ix', balance);
      ys' := ys' + [balance];
    }
  }

  /** The final loop: every grid point left is before all transactions, so
      each gets the fully undone balance. */
  method PushRemaining(anchor: real, ts: seq<Transaction>, xs: seq<real>, ys: seq<real>,
                       balance: real) returns (ys': seq<real>)
    requires DatesAscending(ts)
    requires 0 < |ys| <= |xs|
    requires Pushed(anchor, ts, xs, ys) && Passed(ts, xs, 0, |xs| - |ys|)
    requires balance == anchor - Total(ts)
    ensures |ys'| == |xs| && Pushed(anchor, ts, xs, ys')
  {
    ys' := ys;
    assert ts[0..] == ts;
    while |ys'| < |xs|
      invariant |ys'| <= |xs|
      invariant Pushed(anchor, ts, xs, ys') && Passed(ts, xs, 0, |xs| - |ys'|)
    {
      PushStep(anchor, ts, xs, ys', 0, |xs| - 1 - |ys'|, balance);
      ys' := ys' + [balance];
    }
  }

  /** Reading the pushed values back to front gives the closed form. */
  lemma ReversedIsBalanceSeries(anchor: real, ts: seq<Transaction>, xs: seq<real>, ys: seq<real>, series: seq<real>)
    requires |xs| == 0 ==> ys == [anchor]
    requires |xs| > 0 ==> |ys| == |xs|
    requires Pushed(anchor, ts, xs, ys)
    requires series == seq(|ys|, k requires 0 <= k < |ys| => ys[|ys| - 1 - k])
    ensures series == BalanceSeries(anchor, ts, xs)
  {
    if |xs| > 0 {
      var b := BalanceSeries(anchor, ts, xs);
      forall j | 0 <= j < |xs| ensures series[j] == b[j] {
        if j < |xs| - 1 {
          assert series[j] == ys[|xs| - 1 - j];
        }
      }
    }
  }

  /** `get_money_series`: one series per account whose current balance is
      nonzero (`if (!balance) continue`). */
  method MoneySeries(tables: map<string, MoneyTable>, xs: seq<real>) returns (series: map<string, seq<real>>)
    requires NonDecreasing(xs)
    requires forall l :: l in tables ==> DatesAscending(tables[l].trans)
    ensures series.Keys == set l | l in tables && tables[l].balance != 0.0
    ensures forall l :: l in series ==> series[l] == BalanceSeries(tables[l].balance, tables[l].trans, xs)
  {
    series := map[];
    var todo := tables.Keys;
    while todo != {}
      invariant todo <= tables.Keys
      invariant series.Keys == set l | l in tables.Keys - todo && tables[l].balance != 0.0
      invariant forall l :: l in series ==> series[l] == BalanceSeries(tables[l].balance, tables[l].trans, xs)
      decreases |todo|
    {
      var key :| key in todo;
      todo := todo - {key};
      var table := tables[key];
      if table.balance != 0.0 {
        var ys := AccountSeries(table.balance, table.trans, xs);
        series := series[key := ys];
      }
    }
  }

  /** The example of three grid points around two transactions. */
  lemma BalanceSeriesExample(ts: seq<Transaction>, xs: seq<real>)
    requires ts == [Transaction(10, "bank", 200.0), Transaction(20, "bank", -50.0)]
    requires xs == [5.0, 15.0, 25.0]
    ensures BalanceSeries(1000.0, ts, xs) == [850.0, 1050.0, 1000.0]
  {
    SinceSplit(ts, 0, 5.0);
    SinceSplit(ts, 1, 15.0);
    assert Since(ts, 5.0) == ts by {
      assert ts[0..] == ts;
    }
    assert Total(ts[1..]) == -50.0 by {
      assert ts[1..] == [ts[1]];
    }
    assert Total(ts) == 150.0 by {
      assert ts[..1] == [ts[0]];
    }
    var b := BalanceSeries(1000.0, ts, xs);
    assert b[0] == 850.0 && b[1] == 1050.0 && b[2] == 1000.0;
  }

  /** The last point of a non-empty grid always shows the anchor, and the
      series has one value per grid point. */
  lemma BalanceSeriesShape(anchor: real, ts: seq<Transaction>, xs: seq<real>)
    requires |xs| > 0
    ensures |BalanceSeries(anchor, ts, xs)| == |xs|
    ensures BalanceSeries(anchor, ts, xs)[|xs| - 1] == anchor
  {
  }

  lemma {:induction false} TotalOfZeros(ts: seq<Transaction>)
    requires forall p :: 0 <= p < |ts| ==> ts[p].amount == 0.0
    ensures Total(ts) == 0.0
  {
    if |ts| > 0 {
      var init := ts[..|ts| - 1];
      forall p | 0 <= p < |init| ensures init[p].amount == 0.0 {
        assert init[p] == ts[p];
      }
      TotalOfZeros(init);
    }
  }

  lemma {:induction false} SinceKeepsZeros(ts: seq<Transaction>, x: real)
    requires forall p :: 0 <= p < |ts| ==> ts[p].amount == 0.0
    ensures forall p :: 0 <= p < |Since(ts, x)| ==> Since(ts, x)[p].amount == 0.0
  {
    if |ts| > 0 {
      var init := ts[..|ts| - 1];
      forall p | 0 <= p < |init| ensures init[p].amount == 0.0 {
        assert init[p] == ts[p];
      }
      SinceKeepsZeros(init, x);
    }
  }

  /** With no transactions, or only zero amounts, the series is flat at the
      anchor. */
  lemma FlatWithoutMovement(anchor: real, ts: seq<Transaction>, xs: seq<real>)
    requires forall p :: 0 <= p < |ts| ==> ts[p].amount == 0.0
    ensures forall j :: 0 <= j < |BalanceSeries(anchor, ts, xs)| ==> BalanceSeries(anchor, ts, xs)[j] == anchor
  {
    forall j | 0 <= j < |xs| - 1 ensures Total(Since(ts, xs[j])) == 0.0 {
      SinceKeepsZeros(ts, xs[j]);
      TotalOfZeros(Since(ts, xs[j]));
    }
  }

  /** A grid point at or before the earliest transaction shows the anchor
      minus every amount. */
  lemma BeforeAllTransactions(anchor: real, ts: seq<Transaction>, xs: seq<real>, j: nat)
    requires DatesAscending(ts) && |ts| > 0
    requires j < |xs| - 1 && xs[j] <= ts[0].date as real
    ensures BalanceSeries(anchor, ts, xs)[j] == anchor - Total(ts)
  {
    forall p | 0 <= p < |ts| ensures xs[j] <= ts[p].date as real {
      assert ts[0].date <= ts[p].date;
    }
    BalanceAtSplit(anchor, ts, xs, j, 0);
    assert ts[0..] == ts;
  }

  /** An inner grid point with the history split at `m` by its date shows the
      anchor minus the amounts from `m` on. */
  lemma BalanceAtSplit(anchor: real, ts: seq<Transaction>, xs: seq<real>, j: nat, m: nat)
    requires j < |xs| - 1 && m <= |ts|
    requires forall p :: 0 <= p < m ==> (ts[p].date as real) < xs[j]
    requires forall p :: m <= p < |ts| ==> xs[j] <= ts[p].date as real
    ensures BalanceSeries(anchor, ts, xs)[j] == anchor - Total(ts[m..])
  {
    SinceSplit(ts, m, xs[j]);
  }

  /** Reconstructing from the balance the collection carried forward gives the
      opening balance back at every grid point before the account's first
      transaction, as long as the running balance never hit 0. */
  lemma ReconstructsOpeningBalance(b0: real, ts: seq<Transaction>, xs: seq<real>, j: nat)
    requires DatesAscending(ts)
    requires forall k :: 0 <= k < |ts| ==> b0 + Total(ts[..k]) != 0.0
    requires j < |xs| - 1 && forall p :: 0 <= p < |ts| ==> xs[j] <= ts[p].date as real
    ensures BalanceSeries(Carried(b0, ts), ts, xs)[j] == b0
  {
    CarriedIsOpeningPlusTotal(b0, ts);
    SinceSplit(ts, 0, xs[j]);
    assert ts[0..] == ts;
  }

  // ---------------------------------------------------------------------
  // Market value (`get_stockval_series`)
  // ---------------------------------------------------------------------

  /** `prices[k].value * amount * jpy_rate`, with `amount` NaN before the
      holding's start and an undefined rate propagating. */
  function StockValAt(price: real, h: Holding, rate: Option<real>, x: real): Option<real> {
    if x >= h.start as real && rate.Some? then Some(Worth(price, h.amount, rate.value)) else None
  }

  /** Price times quantity times rate, multiplied left to right. */
  function Worth(price: real, amount: real, rate: real): real {
    price * amount * rate
  }

  /** The market value series of one holding: the price under the cursor at
      each grid point, times quantity and rate. */
  function StockValues(h: Holding, prices: seq<Point>, isUSD: map<string, bool>,
                       exrates: map<int, real>, xs: seq<real>): seq<Option<real>>
    requires |prices| > 0
  {
    seq(|xs|, j requires 0 <= j < |xs| =>
      StockValAt(prices[PriceIndex(prices, xs[j])].value, h, JpyRate(h.code, xs[j], isUSD, exrates), xs[j]))
  }

  /** The per-holding loop: cursor `k` only moves forward across the grid. */
  method HoldingValues(h: Holding, prices: seq<Point>, isUSD: map<string, bool>,
                       exrates: map<int, real>, xs: seq<real>) returns (vals: seq<Option<real>>)
    requires |prices| > 0
    requires NonDecreasing(xs)
    ensures vals == StockValues(h, prices, isUSD, exrates, xs)
  {
    vals := [];
    var k := 0;
    for j := 0 to |xs|
      invariant |vals| == j
      invariant k < |prices|
      invariant j == 0 ==> k == 0
      invariant j > 0 ==> k == PriceIndex(prices, xs[j - 1])
      invariant forall q :: 0 <= q < j ==>
        vals[q] == StockValAt(prices[PriceIndex(prices, xs[q])].value, h, JpyRate(h.code, xs[q], isUSD, exrates), xs[q])
    {
      var x := xs[j];
      var rate := JpyRate(h.code, x, isUSD, exrates);
      assert j > 0 ==> xs[j - 1] <= x;
      k := Advance(prices, x, k);
      vals := vals + [StockValAt(prices[k].value, h, rate, x)];
    }
  }

  /** `get_stockval_series`: one series per holding, in holding order. */
  method StockValSeries(sc: StockCollection.Collection, xs: seq<real>) returns (series: seq<seq<Option<real>>>)
    requires NonDecreasing(xs)
    requires forall i :: 0 <= i < |sc.holdings| ==>
      sc.holdings[i].code in sc.prices && |sc.prices[sc.holdings[i].code]| > 0
    ensures |series| == |sc.holdings|
    ensures forall i :: 0 <= i < |series| ==>
      series[i] == StockValues(sc.holdings[i], sc.prices[sc.holdings[i].code], sc.isUSD, sc.exrates, xs)
  {
    series := [];
    for i := 0 to |sc.holdings|
      invariant |series| == i
      invariant forall q :: 0 <= q < i ==>
        series[q] == StockValues(sc.holdings[q], sc.prices[sc.holdings[q].code], sc.isUSD, sc.exrates, xs)
    {
      var h := sc.holdings[i];
      var vals := HoldingValues(h, sc.prices[h.code], sc.isUSD, sc.exrates, xs);
      series := series + [vals];
    }
  }

  /** Before its start a holding has no value, nor without a rate; otherwise
      it is worth price times quantity times rate, the price being that of
      the first record dated at or after the grid point, or the last record. */
  lemma StockValuesSpec(h: Holding, prices: seq<Point>, isUSD: map<string, bool>,
                        exrates: map<int, real>, xs: seq<real>, j: nat)
    requires |prices| > 0 && j < |xs|
    ensures var v := StockValues(h, prices, isUSD, exrates, xs)[j];
      var rate := JpyRate(h.code, xs[j], isUSD, exrates);
      && (xs[j] < h.start as real || rate == None ==> v == None)
      && (xs[j] >= h.start as real && rate.Some? ==>
           exists k :: 0 <= k < |prices| && v == Some(Worth(prices[k].value, h.amount, rate.value)) &&
             (forall i :: 0 <= i < k ==> (prices[i].date as real) < xs[j]) &&
             (k == |prices| - 1 || xs[j] <= prices[k].date as real))
  {
    var k := PriceIndex(prices, xs[j]);
    var rate := JpyRate(h.code, xs[j], isUSD, exrates);
    assert StockValues(h, prices, isUSD, exrates, xs)[j] == StockValAt(prices[k].value, h, rate, xs[j]);
  }

  /** The market value never looks at the holding's end date. */
  lemma StockValuesIgnoreEnd(h: Holding, e: int, prices: seq<Point>, isUSD: map<string, bool>,
                             exrates: map<int, real>, xs: seq<real>)
    requires |prices| > 0
    ensures StockValues(h.(end := e), prices, isUSD, exrates, xs) == StockValues(h, prices, isUSD, exrates, xs)
  {
    var a := StockValues(h.(end := e), prices, isUSD, exrates, xs);
    var b := StockValues(h, prices, isUSD, exrates, xs);
    forall j | 0 <= j < |xs| ensures a[j] == b[j] {
      var p := prices[PriceIndex(prices, xs[j])].value;
      var r := JpyRate(h.code, xs[j], isUSD, exrates);
      assert a[j] == StockValAt(p, h.(end := e), r, xs[j]);
      assert b[j] == StockValAt(p, h, r, xs[j]);
    }
  }

  // ---------------------------------------------------------------------
  // Chart rows
  // ---------------------------------------------------------------------

  /** The cell a holding contributes to row `i`: its value when present, 0
      when absent but present at the next point, and nothing otherwise. */
  function StockCell(vals: seq<Option<real>>, i: nat): Option<real>
    requires i < |vals|
  {
    if vals[i].Some? then vals[i]
    else if i + 1 < |vals| && vals[i + 1].Some? then Some(0.0)
    else None
  }

  /** `y["date"] = x`, then each account's balance at point `i`. */
  function BalanceRow(x: real, balances: map<string, seq<real>>, i: nat): map<string, real>
    requires forall l :: l in balances ==> i < |balances[l]|
  {
    map["date" := x] + map l | l in balances :: balances[l][i]
  }

  /** The holdings' cells written over `base` in holding order; a later
      holding with the same name overwrites an earlier one. */
  function WithStockCells(base: map<string, real>, names: seq<string>, stockvals: seq<seq<Option<real>>>, i: nat): map<string, real>
    requires |names| == |stockvals|
    requires forall k :: 0 <= k < |stockvals| ==> i < |stockvals[k]|
  {
    if |names| == 0 then base
    else
      var m := WithStockCells(base, names[..|names| - 1], stockvals[..|stockvals| - 1], i);
      var cell := StockCell(stockvals[|stockvals| - 1], i);
      if cell.Some? then m[names[|names| - 1] := cell.value] else m
  }

  /** `y["date"] = x`, then one key per account, in any order. */
  method BalanceCells(x: real, i: nat, balances: map<string, seq<real>>) returns (row: map<string, real>)
    requires forall l :: l in balances ==> i < |balances[l]|
    ensures row == BalanceRow(x, balances, i)
  {
    row := map["date" := x];
    var todo := balances.Keys;
    while todo != {}
      invariant todo <= balances.Keys
      invariant row == map["date" := x] + map l | l in balances.Keys - todo :: balances[l][i]
      decreases |todo|
    {
      var key :| key in todo;
      todo := todo - {key};
      row := row[key := balances[key][i]];
    }
    assert balances.Keys - todo == balances.Keys;
  }

  /** One chart row (the `xs.map((x, i) => ...)` body). */
  method AssetRow(x: real, i: nat, balances: map<string, seq<real>>, names: seq<string>,
                  stockvals: seq<seq<Option<real>>>) returns (row: map<string, real>)
    requires forall l :: l in balances ==> i < |balances[l]|
    requires |names| == |stockvals|
    requires forall k :: 0 <= k < |stockvals| ==> i < |stockvals[k]|
    ensures row == WithStockCells(BalanceRow(x, balances, i), names, stockvals, i)
  {
    row := BalanceCells(x, i, balances);
    ghost var base := row;
    for idx := 0 to |stockvals|
      invariant row == WithStockCells(base, names[..idx], stockvals[..idx], i)
    {
      assert names[..idx + 1][..idx] == names[..idx];
      assert stockvals[..idx + 1][..idx] == stockvals[..idx];
      var vals := stockvals[idx];
      if vals[i].None? {
        if i + 1 < |vals| && vals[i + 1].Some? {
          row := row[names[idx] := 0.0];
        } else {
          continue;
        }
      } else {
        row := row[names[idx] := vals[i].value];
      }
    }
    assert names[..|names|] == names;
    assert stockvals[..|stockvals|] == stockvals;
  }

  /** With distinct holding names that no account and "date" use, a holding's
      key is present in a row exactly when its cell is, and holds the cell. */
  lemma {:induction false} StockCellsOfDistinctNames(base: map<string, real>, names: seq<string>,
                                                     stockvals: seq<seq<Option<real>>>, i: nat, k: nat)
    requires |names| == |stockvals|
    requires forall q :: 0 <= q < |stockvals| ==> i < |stockvals[q]|
    requires k < |names|
    requires forall p, q :: 0 <= p < q < |names| ==> names[p] != names[q]
    requires names[k] !in base
    ensures var row := WithStockCells(base, names, stockvals, i);
      (names[k] in row <==> StockCell(stockvals[k], i).Some?) &&
      (names[k] in row ==> row[names[k]] == StockCell(stockvals[k], i).value)
  {
    var last := |names| - 1;
    if k < last {
      StockCellsOfDistinctNames(base, names[..last], stockvals[..last], i, k);
    } else {
      StockCellsOmitName(base, names[..last], stockvals[..last], i, names[k]);
    }
  }

  lemma {:induction false} StockCellsOmitName(base: map<string, real>, names: seq<string>,
                                              stockvals: seq<seq<Option<real>>>, i: nat, name: string)
    requires |names| == |stockvals|
    requires forall q :: 0 <= q < |stockvals| ==> i < |stockvals[q]|
    requires forall q :: 0 <= q < |names| ==> names[q] != name
    requires name !in base
    ensures name !in WithStockCells(base, names, stockvals, i)
  {
    if |names| > 0 {
      var last := |names| - 1;
      StockCellsOmitName(base, names[..last], stockvals[..last], i, name);
    }
  }

  /** In a row with distinct holding names that no account and "date" use,
      a holding present at the point shows its value, and a holding absent
      at the point shows 0 exactly when it is present at the next point and
      is omitted otherwise, so the area of each holding rises from 0. */
  lemma RowRisesFromZero(base: map<string, real>, names: seq<string>,
                         stockvals: seq<seq<Option<real>>>, i: nat, k: nat)
    requires |names| == |stockvals|
    requires forall q :: 0 <= q < |stockvals| ==> i < |stockvals[q]|
    requires k < |names| && i + 1 < |stockvals[k]|
    requires forall p, q :: 0 <= p < q < |names| ==> names[p] != names[q]
    requires names[k] !in base
    ensures var row := WithStockCells(base, names, stockvals, i);
      var vals := stockvals[k];
      && (vals[i].Some? ==> names[k] in row && row[names[k]] == vals[i].value)
      && (vals[i].None? ==> (names[k] in row <==> vals[i + 1].Some?))
      && (vals[i].None? && names[k] in row ==> row[names[k]] == 0.0)
  {
    StockCellsOfDistinctNames(base, names, stockvals, i, k);
  }
}
