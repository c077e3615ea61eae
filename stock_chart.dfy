/** The stock chart: unrealised profit of each holding on a grid of at most
    200 points over a chosen number of days, split per row into a "+" and a
    "-" key with zero points inserted where the sign changes; and dividends
    per half year, cumulated, per half or as a yield. */
module StockChart {
  import opened Series
  import opened StockCollection

  // ---------------------------------------------------------------------
  // Profit grid
  // ---------------------------------------------------------------------

  /** `new Date("2019-08-01").getTime()`: the grid never starts earlier. */
  const ProfitLimit: int := 1564617600000

  const MaxProfitPoints: nat := 200

  /** What `[...Array(num_x)].map(...)` produces: a `RangeError` when `num_x`
      is negative or fractional, the single point `xmin + 0 * Infinity`
      (NaN) when `num_x` is 1, and the even grid otherwise. */
  datatype ProfitGridOutcome = InvalidLength | SingleNaN | Grid(xs: seq<real>)

  function Max(a: int, b: int): int {
    if a < b then b else a
  }

  /** The grid of the profit chart for `now` and a range of `days`. */
  function ProfitGrid(now: int, days: int): (g: ProfitGridOutcome)
    ensures g.Grid? && |g.xs| > 0 ==>
      && 2 <= |g.xs| <= MaxProfitPoints
      && g.xs[0] == Max(now - days * MsPerDay, ProfitLimit) as real
      && g.xs[|g.xs| - 1] == now as real
      && StrictlyAscending(g.xs)
  {
    var xmin := Max(now - days * MsPerDay, ProfitLimit);
    var span := (now - xmin) as real / MsPerDay as real;
    var num := if span < MaxProfitPoints as real then span else MaxProfitPoints as real;
    if num < 0.0 || num.Floor as real != num then InvalidLength
    else if num == 0.0 then Grid([])
    else if num == 1.0 then SingleNaN
    else Grid(EvenGrid(xmin as real, now as real, num.Floor))
  }

  /** Every outcome of the grid by the distance `d` from its start to now:
      a start after now and a fractional number of days under the cap are
      errors, no distance is the empty grid, one day is the single NaN, and
      otherwise the grid is the even one from the start to now with one point
      per day, at most 200. */
  lemma ProfitGridCases(now: int, days: int)
    ensures var xmin := Max(now - days * MsPerDay, ProfitLimit);
      var d := now - xmin;
      var g := ProfitGrid(now, days);
      && (d < 0 ==> g == InvalidLength)
      && (d == 0 ==> g == Grid([]))
      && (d == MsPerDay ==> g == SingleNaN)
      && (0 < d < MaxProfitPoints * MsPerDay && d % MsPerDay != 0 ==> g == InvalidLength)
      && (2 * MsPerDay <= d < MaxProfitPoints * MsPerDay && d % MsPerDay == 0 ==>
           g == Grid(EvenGrid(xmin as real, now as real, d / MsPerDay)))
      && (d >= MaxProfitPoints * MsPerDay ==>
           g == Grid(EvenGrid(xmin as real, now as real, MaxProfitPoints)))
  {
    var xmin := Max(now - days * MsPerDay, ProfitLimit);
    DaysOf(now - xmin);
  }

  /** The number of days `d / 86400000` in a distance of `d` milliseconds. */
  lemma DaysOf(d: int)
    ensures var span := d as real / MsPerDay as real;
      && (span < 0.0 <==> d < 0)
      && (span < MaxProfitPoints as real <==> d < MaxProfitPoints * MsPerDay)
      && (d % MsPerDay == 0 ==> span == (d / MsPerDay) as real)
      && (d % MsPerDay != 0 ==> span.Floor as real != span)
  {
    var span := d as real / MsPerDay as real;
    var q := d / MsPerDay;
    var r := d % MsPerDay;
    assert d == q * MsPerDay + r && 0 <= r < MsPerDay;
    assert span * MsPerDay as real == d as real;
    assert span == q as real + r as real / MsPerDay as real;
    assert 0.0 <= r as real / MsPerDay as real < 1.0;
    assert span.Floor == q;
  }

  /** A range reaching back no further than the limit yields one point per
      day of the range, up to 200. */
  lemma ProfitGridOfRange(now: int, days: int)
    requires days >= 2 && now - days * MsPerDay >= ProfitLimit
    ensures var g := ProfitGrid(now, days);
      && g.Grid?
      && |g.xs| == (if days < MaxProfitPoints then days else MaxProfitPoints)
      && g.xs[0] == (now - days * MsPerDay) as real
  {
    var xmin := now - days * MsPerDay;
    assert Max(xmin, ProfitLimit) == xmin;
    var span := (now - xmin) as real / MsPerDay as real;
    assert span == days as real by {
      assert (now - xmin) as real == days as real * MsPerDay as real;
    }
  }

  /** Once now is at least 200 days past the limit, a range reaching back to
      the limit gives the full 200 points starting at the limit. */
  lemma ProfitGridAtLimit(now: int, days: int)
    requires now - days * MsPerDay <= ProfitLimit
    requires now - ProfitLimit >= MaxProfitPoints * MsPerDay
    ensures var g := ProfitGrid(now, days);
      g.Grid? && |g.xs| == MaxProfitPoints && g.xs[0] == ProfitLimit as real
  {
    var span := (now - ProfitLimit) as real / MsPerDay as real;
    assert span >= MaxProfitPoints as real by {
      assert (now - ProfitLimit) as real >= MaxProfitPoints as real * MsPerDay as real;
    }
  }

  // ---------------------------------------------------------------------
  // Profit (`get_stock_profits`)
  // ---------------------------------------------------------------------

  /** The acquisition price the profit is measured against: converted at the
      current rate when the exchange gain is considered. */
  function BasePrice(h: Holding, rate: real, withFx: bool): real
    requires withFx ==> rate != 0.0
  {
    if withFx then h.acqPrice * (h.acqRate / rate) else h.acqPrice
  }

  /** `amount * jpy_rate * (price - base_price)`. */
  function Gain(h: Holding, price: real, rate: real, withFx: bool): real
    requires withFx ==> rate != 0.0
  {
    h.amount * rate * (price - BasePrice(h, rate, withFx))
  }

  /** The holding is held at instant `x`: `start <= x && x <= end`. */
  predicate Held(h: Holding, x: real) {
    h.start as real <= x <= h.end as real
  }

  /** The profit of a holding at instant `x`; NaN outside its window, with
      an undefined rate, and with the exchange gain on at rate 0 (where
      `acq_rate / 0` is infinite and the product NaN). */
  function ProfitAt(h: Holding, price: real, rate: Option<real>, x: real, withFx: bool): Option<real> {
    if Held(h, x) && rate.Some? && !(withFx && rate.value == 0.0) then Some(Gain(h, price, rate.value, withFx))
    else None
  }

  /** With the exchange gain considered, the profit is the value at today's
      price and rate less the value at the acquisition price and rate. */
  lemma GainWithFx(h: Holding, price: real, rate: real)
    requires rate != 0.0
    ensures Gain(h, price, rate, true) == h.amount * (rate * price - h.acqPrice * h.acqRate)
  {
    assert rate * (h.acqPrice * (h.acqRate / rate)) == h.acqPrice * h.acqRate by {
      assert rate * (h.acqRate / rate) == h.acqRate;
    }
    assert rate * (price - BasePrice(h, rate, true)) == rate * price - h.acqPrice * h.acqRate;
  }

  /** At the acquisition price (and, with the exchange gain on, the
      acquisition rate) the profit is zero. */
  lemma GainZeroAtAcquisition(h: Holding, rate: real, withFx: bool)
    requires withFx ==> rate != 0.0 && rate == h.acqRate
    ensures Gain(h, h.acqPrice, rate, withFx) == 0.0
  {
    if withFx {
      assert h.acqRate / rate == 1.0;
    }
  }

  /** The profit series of one holding: the price under the cursor at each
      grid point, the rate of that instant. */
  function StockProfits(h: Holding, prices: seq<Point>, isUSD: map<string, bool>,
                        exrates: map<int, real>, xs: seq<real>, withFx: bool): seq<Option<real>>
    requires |prices| > 0
  {
    seq(|xs|, j requires 0 <= j < |xs| =>
      ProfitAt(h, prices[PriceIndex(prices, xs[j])].value, JpyRate(h.code, xs[j], isUSD, exrates), xs[j], withFx))
  }

  /** A profit is present exactly when the instant lies in the holding's
      window and the rate is usable, and then it is the gain at the first
      price dated at or after the instant, or at the last price. */
  lemma StockProfitsSpec(h: Holding, prices: seq<Point>, isUSD: map<string, bool>,
                         exrates: map<int, real>, xs: seq<real>, withFx: bool, j: nat)
    requires |prices| > 0 && j < |xs|
    ensures var v := StockProfits(h, prices, isUSD, exrates, xs, withFx)[j];
      var rate := JpyRate(h.code, xs[j], isUSD, exrates);
      && (v.Some? <==> h.start as real <= xs[j] <= h.end as real && rate.Some? && (withFx ==> rate.value != 0.0))
      && (v.Some? ==>
           exists k :: 0 <= k < |prices| && v == Some(Gain(h, prices[k].value, rate.value, withFx)) &&
             (forall i :: 0 <= i < k ==> (prices[i].date as real) < xs[j]) &&
             (k == |prices| - 1 || xs[j] <= prices[k].date as real))
  {
    var k := PriceIndex(prices, xs[j]);
    var rate := JpyRate(h.code, xs[j], isUSD, exrates);
    assert StockProfits(h, prices, isUSD, exrates, xs, withFx)[j] == ProfitAt(h, prices[k].value, rate, xs[j], withFx);
  }

  /** The per-holding loop: cursor `k` only moves forward across the grid. */
  method HoldingProfits(h: Holding, prices: seq<Point>, isUSD: map<string, bool>,
                        exrates: map<int, real>, xs: seq<real>, withFx: bool) returns (profits: seq<Option<real>>)
    requires |prices| > 0
    requires NonDecreasing(xs)
    ensures profits == StockProfits(h, prices, isUSD, exrates, xs, withFx)
  {
    profits := [];
    var k := 0;
    for j := 0 to |xs|
      invariant |profits| == j
      invariant k < |prices|
      invariant j == 0 ==> k == 0
      invariant j > 0 ==> k == PriceIndex(prices, xs[j - 1])
      invariant forall q :: 0 <= q < j ==>
        profits[q] == ProfitAt(h, prices[PriceIndex(prices, xs[q])].value, JpyRate(h.code, xs[q], isUSD, exrates), xs[q], withFx)
    {
      var x := xs[j];
      assert j > 0 ==> xs[j - 1] <= x;
      k := Advance(prices, x, k);
      var rate := JpyRate(h.code, x, isUSD, exrates);
      var profit: Option<real> := None;
      if Held(h, x) && rate.Some? && !(withFx && rate.value == 0.0) {
        profit := Some(Gain(h, prices[k].value, rate.value, withFx));
      }
      assert profit == ProfitAt(h, prices[k].value, rate, x, withFx);
      profits := profits + [profit];
    }
    assert |profits| == |xs|;
  }

  /** `get_stock_profits`: one series per holding, in holding order. */
  method AllProfits(sc: StockCollection.Collection, xs: seq<real>, withFx: bool) returns (series: seq<seq<Option<real>>>)
    requires NonDecreasing(xs)
    requires forall i :: 0 <= i < |sc.holdings| ==>
      sc.holdings[i].code in sc.prices && |sc.prices[sc.holdings[i].code]| > 0
    ensures |series| == |sc.holdings|
    ensures forall i :: 0 <= i < |series| ==>
      series[i] == StockProfits(sc.holdings[i], sc.prices[sc.holdings[i].code], sc.isUSD, sc.exrates, xs, withFx)
  {
    series := [];
    for i := 0 to |sc.holdings|
      invariant |series| == i
      invariant forall q :: 0 <= q < i ==>
        series[q] == StockProfits(sc.holdings[q], sc.prices[sc.holdings[q].code], sc.isUSD, sc.exrates, xs, withFx)
    {
      var h := sc.holdings[i];
      var profits := HoldingProfits(h, sc.prices[h.code], sc.isUSD, sc.exrates, xs, withFx);
      series := series + [profits];
    }
  }

  // ---------------------------------------------------------------------
  // Profit rows
  // ---------------------------------------------------------------------

  /** The holdings' labels, in holding order. */
  function HoldingNames(hs: seq<Holding>): (names: seq<string>)
    ensures |names| == |hs| && forall i :: 0 <= i < |hs| ==> names[i] == hs[i].name
  {
    seq(|hs|, i requires 0 <= i < |hs| => hs[i].name)
  }

  /** The key a profit goes under: `label + "+"` when positive, otherwise
      `label + "-"`, the profit keeping its sign. */
  function ProfitKey(name: string, p: real): string {
    name + (if p > 0.0 then "+" else "-")
  }

  /** The profits of point `i` written over `base` in holding order; an
      absent profit adds nothing and a later holding with the same key
      overwrites an earlier one. */
  function ProfitCells(base: map<string, real>, names: seq<string>, profits: seq<seq<Option<real>>>, i: nat): map<string, real>
    requires |names| == |profits|
    requires forall k :: 0 <= k < |profits| ==> i < |profits[k]|
  {
    if |names| == 0 then base
    else
      var m := ProfitCells(base, names[..|names| - 1], profits[..|profits| - 1], i);
      var p := profits[|profits| - 1][i];
      if p.Some? then m[ProfitKey(names[|names| - 1], p.value) := p.value] else m
  }

  /** `sc.exrates[date2str(new Date(x))]`. */
  function ExrateCell(exrates: map<int, real>, x: real): Option<real> {
    Lookup(exrates, DayKey(Trunc(x)))
  }

  /** Row `i` of the profit chart: its date, the profits, then the rate of
      the day when the table has one. */
  function ProfitRow(x: real, names: seq<string>, profits: seq<seq<Option<real>>>, i: nat,
                     exrate: Option<real>): map<string, real>
    requires |names| == |profits|
    requires forall k :: 0 <= k < |profits| ==> i < |profits[k]|
  {
    var cells := ProfitCells(map["date" := x], names, profits, i);
    if exrate.Some? then cells["exrate" := exrate.value] else cells
  }

  /** One row of the profit chart (the `xs.map((x, i) => ...)` body). */
  method BuildProfitRow(x: real, i: nat, names: seq<string>, profits: seq<seq<Option<real>>>,
                        exrates: map<int, real>) returns (row: map<string, real>)
    requires |names| == |profits|
    requires forall k :: 0 <= k < |profits| ==> i < |profits[k]|
    ensures row == ProfitRow(x, names, profits, i, ExrateCell(exrates, x))
  {
    row := map["date" := x];
    for idx := 0 to |profits|
      invariant row == ProfitCells(map["date" := x], names[..idx], profits[..idx], i)
    {
      assert names[..idx + 1][..idx] == names[..idx];
      assert profits[..idx + 1][..idx] == profits[..idx];
      var profit := profits[idx][i];
      if profit.None? {
        continue;
      }
      var key := names[idx] + (if profit.value > 0.0 then "+" else "-");
      row := row[key := profit.value];
    }
    assert names[..|names|] == names;
    assert profits[..|profits|] == profits;
    var d := DayKey(Trunc(x));
    if d in exrates {
      row := row["exrate" := exrates[d]];
    }
  }

  /** Two keys made of a text and one final character agree only when both
      parts do. */
  lemma KeySplit(a: string, c: char, b: string, d: char)
    requires a + [c] == b + [d]
    ensures a == b && c == d
  {
    assert |a| == |b|;
    assert a == (a + [c])[..|a|];
    assert b == (b + [d])[..|b|];
    assert c == (a + [c])[|a|];
  }

  lemma {:induction false} ProfitCellsOmit(base: map<string, real>, names: seq<string>,
                                           profits: seq<seq<Option<real>>>, i: nat, name: string, c: char)
    requires |names| == |profits|
    requires forall k :: 0 <= k < |profits| ==> i < |profits[k]|
    requires forall k :: 0 <= k < |names| ==> names[k] != name
    requires name + [c] !in base
    ensures name + [c] !in ProfitCells(base, names, profits, i)
  {
    if |names| > 0 {
      var last := |names| - 1;
      ProfitCellsOmit(base, names[..last], profits[..last], i, name, c);
      var p := profits[last][i];
      if p.Some? {
        var sign := if p.value > 0.0 then '+' else '-';
        assert ProfitKey(names[last], p.value) == names[last] + [sign];
        if names[last] + [sign] == name + [c] {
          KeySplit(names[last], sign, name, c);
        }
      }
    }
  }

  lemma {:induction false} ProfitCellsOf(base: map<string, real>, names: seq<string>,
                                         profits: seq<seq<Option<real>>>, i: nat, k: nat)
    requires |names| == |profits|
    requires forall q :: 0 <= q < |profits| ==> i < |profits[q]|
    requires k < |names|
    requires forall p, q :: 0 <= p < q < |names| ==> names[p] != names[q]
    requires names[k] + "+" !in base && names[k] + "-" !in base
    ensures var cells := ProfitCells(base, names, profits, i);
      var p := profits[k][i];
      && (names[k] + "+" in cells <==> p.Some? && p.value > 0.0)
      && (names[k] + "-" in cells <==> p.Some? && p.value <= 0.0)
      && (p.Some? ==> cells[ProfitKey(names[k], p.value)] == p.value)
  {
    var last := |names| - 1;
    var init := ProfitCells(base, names[..last], profits[..last], i);
    var p := profits[last][i];
    if k < last {
      ProfitCellsOf(base, names[..last], profits[..last], i, k);
      if p.Some? {
        var sign := if p.value > 0.0 then '+' else '-';
        assert ProfitKey(names[last], p.value) == names[last] + [sign];
        if names[last] + [sign] == names[k] + "+" {
          KeySplit(names[last], sign, names[k], '+');
        }
        if names[last] + [sign] == names[k] + "-" {
          KeySplit(names[last], sign, names[k], '-');
        }
      }
    } else {
      ProfitCellsOmit(base, names[..last], profits[..last], i, names[k], '+');
      ProfitCellsOmit(base, names[..last], profits[..last], i, names[k], '-');
      if p.Some? {
        assert names[k] + "+" != names[k] + "-" by {
          assert (names[k] + "+")[|names[k]|] == '+';
          assert (names[k] + "-")[|names[k]|] == '-';
        }
      }
    }
  }

  /** With distinct labels, a holding's "+" key holds its profit exactly when
      the profit is present and positive and its "-" key exactly when it is
      present and not positive; an absent profit leaves both keys out. */
  lemma ProfitRowKeys(x: real, names: seq<string>, profits: seq<seq<Option<real>>>, i: nat,
                      exrate: Option<real>, k: nat)
    requires |names| == |profits|
    requires forall q :: 0 <= q < |profits| ==> i < |profits[q]|
    requires k < |names|
    requires forall p, q :: 0 <= p < q < |names| ==> names[p] != names[q]
    ensures var row := ProfitRow(x, names, profits, i, exrate);
      var p := profits[k][i];
      && (names[k] + "+" in row <==> p.Some? && p.value > 0.0)
      && (names[k] + "-" in row <==> p.Some? && p.value <= 0.0)
      && (p.Some? ==> row[ProfitKey(names[k], p.value)] == p.value)
  {
    assert names[k] + "+" != "date" && names[k] + "-" != "date" by {
      assert "date"[3] == 'e';
      assert (names[k] + "+")[|names[k]|] == '+';
      assert (names[k] + "-")[|names[k]|] == '-';
    }
    ProfitCellsOf(map["date" := x], names, profits, i, k);
    assert names[k] + "+" != "exrate" && names[k] + "-" != "exrate" by {
      assert "exrate"[5] == 'e';
      assert (names[k] + "+")[|names[k]|] == '+';
      assert (names[k] + "-")[|names[k]|] == '-';
    }
  }

  // ---------------------------------------------------------------------
  // Zero points where the sign changes
  // ---------------------------------------------------------------------

  /** `key in row && row[key] !== 0`. */
  predicate Nonzero(row: map<string, real>, key: string) {
    key in row && row[key] != 0.0
  }

  /** Whether the pass over `key`, after its first `c` iterations, has
      written 0 into row `j`: the row holds no nonzero value under the key
      and a neighbour already compared with it does. */
  predicate Marked(rows: seq<map<string, real>>, key: string, c: nat, j: nat)
    requires j < |rows| && c < |rows|
  {
    && !Nonzero(rows[j], key)
    && ((1 <= j <= c && Nonzero(rows[j - 1], key)) || (j < c && Nonzero(rows[j + 1], key)))
  }

  /** The rows after the first `c` iterations of the pass over `key`. */
  function CrossedUpTo(rows: seq<map<string, real>>, key: string, c: nat): (r: seq<map<string, real>>)
    requires c == 0 || c < |rows|
    ensures |r| == |rows|
  {
    seq(|rows|, j requires 0 <= j < |rows| => if Marked(rows, key, c, j) then rows[j][key := 0.0] else rows[j])
  }

  /** The number of adjacent pairs, `data.length - 1` iterations. */
  function Pairs(rows: seq<map<string, real>>): nat {
    if |rows| == 0 then 0 else |rows| - 1
  }

  /** The rows after the whole pass over `key`. */
  function Crossed(rows: seq<map<string, real>>, key: string): (r: seq<map<string, real>>)
    ensures |r| == |rows|
  {
    CrossedUpTo(rows, key, Pairs(rows))
  }

  /** The pass of one holding: its "+" key, then its "-" key. */
  function CrossedPair(rows: seq<map<string, real>>, name: string): (r: seq<map<string, real>>)
    ensures |r| == |rows|
  {
    Crossed(Crossed(rows, name + "+"), name + "-")
  }

  /** The passes of all holdings, in holding order. */
  function CrossedAll(rows: seq<map<string, real>>, names: seq<string>): (r: seq<map<string, real>>)
    ensures |r| == |rows|
  {
    if |names| == 0 then rows else CrossedPair(CrossedAll(rows, names[..|names| - 1]), names[|names| - 1])
  }

  /** Iteration `i` for one key: `if (p0 && !p1) data[i + 1][key] = 0;
      if (!p0 && p1) data[i][key] = 0`. */
  function StepRows(rows: seq<map<string, real>>, key: string, i: nat): (r: seq<map<string, real>>)
    requires i + 1 < |rows|
    ensures |r| == |rows|
  {
    if Nonzero(rows[i], key) && !Nonzero(rows[i + 1], key) then rows[i + 1 := rows[i + 1][key := 0.0]]
    else if !Nonzero(rows[i], key) && Nonzero(rows[i + 1], key) then rows[i := rows[i][key := 0.0]]
    else rows
  }

  /** `b` is `a` with zero under some new keys: every old entry kept. */
  ghost predicate ZeroPadded(a: map<string, real>, b: map<string, real>) {
    && (forall q :: q in a ==> q in b && b[q] == a[q])
    && (forall q :: q in b && q !in a ==> b[q] == 0.0)
  }

  lemma ZeroPaddedNonzero(a: map<string, real>, b: map<string, real>, q: string)
    requires ZeroPadded(a, b)
    ensures Nonzero(b, q) <==> Nonzero(a, q)
  {
  }

  lemma ZeroPaddedTrans(a: map<string, real>, b: map<string, real>, c: map<string, real>)
    requires ZeroPadded(a, b) && ZeroPadded(b, c)
    ensures ZeroPadded(a, c)
  {
  }

  /** Writing 0 under a key that holds no nonzero value pads the row. */
  lemma ZeroWritePads(a: map<string, real>, key: string)
    requires !Nonzero(a, key)
    ensures ZeroPadded(a, a[key := 0.0])
  {
  }

  lemma CrossedUpToPads(rows: seq<map<string, real>>, key: string, c: nat, j: nat)
    requires c == 0 || c < |rows|
    requires j < |rows|
    ensures ZeroPadded(rows[j], CrossedUpTo(rows, key, c)[j])
  {
    if Marked(rows, key, c, j) {
      ZeroWritePads(rows[j], key);
    }
  }

  lemma StepRowsPads(rows: seq<map<string, real>>, key: string, i: nat, j: nat)
    requires i + 1 < |rows| && j < |rows|
    ensures ZeroPadded(rows[j], StepRows(rows, key, i)[j])
  {
    if Nonzero(rows[i], key) && !Nonzero(rows[i + 1], key) {
      ZeroWritePads(rows[i + 1], key);
    } else if !Nonzero(rows[i], key) && Nonzero(rows[i + 1], key) {
      ZeroWritePads(rows[i], key);
    }
  }

  /** One more iteration of the pass over `key` extends its closed form. */
  lemma StepAdvance(rows: seq<map<string, real>>, key: string, c: nat)
    requires c + 1 < |rows|
    ensures StepRows(CrossedUpTo(rows, key, c), key, c) == CrossedUpTo(rows, key, c + 1)
  {
    var u := CrossedUpTo(rows, key, c);
    CrossedUpToPads(rows, key, c, c);
    CrossedUpToPads(rows, key, c, c + 1);
    ZeroPaddedNonzero(rows[c], u[c], key);
    ZeroPaddedNonzero(rows[c + 1], u[c + 1], key);
    var s := StepRows(u, key, c);
    var v := CrossedUpTo(rows, key, c + 1);
    forall j | 0 <= j < |rows| ensures s[j] == v[j] {
      if j == c {
        if Marked(rows, key, c, j) {
          assert rows[j][key := 0.0][key := 0.0] == rows[j][key := 0.0];
        }
      }
    }
  }

  /** The iteration over one key commutes with the closed form of the pass
      over another. */
  lemma StepCommutes(rows: seq<map<string, real>>, p: string, n: string, c: nat)
    requires p != n && c + 1 < |rows|
    ensures StepRows(CrossedUpTo(rows, n, c), p, c) == CrossedUpTo(StepRows(rows, p, c), n, c)
  {
    var u := CrossedUpTo(rows, n, c);
    var t := StepRows(rows, p, c);
    forall j | 0 <= j < |rows| ensures Nonzero(u[j], p) == Nonzero(rows[j], p) && Nonzero(t[j], n) == Nonzero(rows[j], n) {
      CrossedUpToPads(rows, n, c, j);
      ZeroPaddedNonzero(rows[j], u[j], p);
      StepRowsPads(rows, p, c, j);
      ZeroPaddedNonzero(rows[j], t[j], n);
    }
    var l := StepRows(u, p, c);
    var r := CrossedUpTo(t, n, c);
    forall j | 0 <= j < |rows| ensures l[j] == r[j] {
      assert Marked(t, n, c, j) == Marked(rows, n, c, j);
      assert rows[j][n := 0.0][p := 0.0] == rows[j][p := 0.0][n := 0.0];
    }
  }

  /** Both keys of a holding advanced by one iteration. */
  lemma PairStep(rows: seq<map<string, real>>, p: string, n: string, c: nat)
    requires p != n && c + 1 < |rows|
    ensures StepRows(StepRows(CrossedUpTo(CrossedUpTo(rows, p, c), n, c), p, c), n, c)
         == CrossedUpTo(CrossedUpTo(rows, p, c + 1), n, c + 1)
  {
    var y := CrossedUpTo(rows, p, c);
    StepCommutes(y, p, n, c);
    StepAdvance(rows, p, c);
    StepAdvance(CrossedUpTo(rows, p, c + 1), n, c);
  }

  /** The sign-crossing pass over the chart rows, in place: for each holding
      and each adjacent pair of rows, a row without a nonzero value under the
      holding's "+" (or "-") key gets 0 there when its neighbour has one. */
  method InsertCrossingZeros(data: array<map<string, real>>, names: seq<string>)
    modifies data
    ensures data[..] == CrossedAll(old(data[..]), names)
  {
    for h := 0 to |names|
      invariant data[..] == CrossedAll(old(data[..]), names[..h])
    {
      assert names[..h + 1][..h] == names[..h];
      var plabel := names[h] + "+";
      var nlabel := names[h] + "-";
      assert plabel != nlabel by {
        assert plabel[|names[h]|] == '+';
        assert nlabel[|names[h]|] == '-';
      }
      ghost var before := data[..];
      var i := 0;
      while i < data.Length - 1
        invariant 0 <= i && (i == 0 || i < data.Length)
        invariant data[..] == CrossedUpTo(CrossedUpTo(before, plabel, i), nlabel, i)
      {
        CrossStep(data, plabel, nlabel, i);
        PairStep(before, plabel, nlabel, i);
        i := i + 1;
      }
      assert i == Pairs(before);
    }
    assert names[..|names|] == names;
  }

  /** One iteration of the inner loop: the four flags of the pair, read
      before any write, then the four conditional writes. */
  method CrossStep(data: array<map<string, real>>, plabel: string, nlabel: string, i: nat)
    requires plabel != nlabel && i + 1 < data.Length
    modifies data
    ensures data[..] == StepRows(StepRows(old(data[..]), plabel, i), nlabel, i)
  {
    ghost var s := data[..];
    var p0 := plabel in data[i] && data[i][plabel] != 0.0;
    var n0 := nlabel in data[i] && data[i][nlabel] != 0.0;
    var p1 := plabel in data[i + 1] && data[i + 1][plabel] != 0.0;
    var n1 := nlabel in data[i + 1] && data[i + 1][nlabel] != 0.0;
    if p0 && !p1 {
      data[i + 1] := data[i + 1][plabel := 0.0];
    }
    if !p0 && p1 {
      data[i] := data[i][plabel := 0.0];
    }
    assert data[..] == StepRows(s, plabel, i);
    ghost var t := data[..];
    StepRowsPads(s, plabel, i, i);
    StepRowsPads(s, plabel, i, i + 1);
    ZeroPaddedNonzero(s[i], t[i], nlabel);
    ZeroPaddedNonzero(s[i + 1], t[i + 1], nlabel);
    if n0 && !n1 {
      data[i + 1] := data[i + 1][nlabel := 0.0];
    }
    if !n0 && n1 {
      data[i] := data[i][nlabel := 0.0];
    }
  }

  /** Adjacent rows `j` and `j + 1` agree on whether `key` is defined as
      soon as either holds a nonzero value under it. */
  ghost predicate ClosedAt(rows: seq<map<string, real>>, key: string, j: nat)
    requires j + 1 < |rows|
  {
    Nonzero(rows[j], key) || Nonzero(rows[j + 1], key) ==> key in rows[j] && key in rows[j + 1]
  }

  lemma CrossedCloses(rows: seq<map<string, real>>, key: string, j: nat)
    requires j + 1 < |rows|
    ensures ClosedAt(Crossed(rows, key), key, j)
  {
    var r := Crossed(rows, key);
    CrossedUpToPads(rows, key, Pairs(rows), j);
    CrossedUpToPads(rows, key, Pairs(rows), j + 1);
    ZeroPaddedNonzero(rows[j], r[j], key);
    ZeroPaddedNonzero(rows[j + 1], r[j + 1], key);
  }

  /** Padding both rows of a pair keeps the pair closed. */
  lemma PaddedStaysClosed(a: seq<map<string, real>>, b: seq<map<string, real>>, key: string, j: nat)
    requires j + 1 < |a| == |b|
    requires ZeroPadded(a[j], b[j]) && ZeroPadded(a[j + 1], b[j + 1])
    requires ClosedAt(a, key, j)
    ensures ClosedAt(b, key, j)
  {
    ZeroPaddedNonzero(a[j], b[j], key);
    ZeroPaddedNonzero(a[j + 1], b[j + 1], key);
  }

  lemma CrossedPairPads(rows: seq<map<string, real>>, name: string, j: nat)
    requires j < |rows|
    ensures ZeroPadded(rows[j], CrossedPair(rows, name)[j])
  {
    var m := Crossed(rows, name + "+");
    CrossedUpToPads(rows, name + "+", Pairs(rows), j);
    CrossedUpToPads(m, name + "-", Pairs(m), j);
    ZeroPaddedTrans(rows[j], m[j], CrossedPair(rows, name)[j]);
  }

  /** The pass never alters a value already in a row, nonzero or 0; it only
      adds keys, and only with the value 0. */
  lemma {:induction false} CrossedAllPads(rows: seq<map<string, real>>, names: seq<string>, j: nat)
    requires j < |rows|
    ensures ZeroPadded(rows[j], CrossedAll(rows, names)[j])
  {
    if |names| > 0 {
      var init := CrossedAll(rows, names[..|names| - 1]);
      CrossedAllPads(rows, names[..|names| - 1], j);
      CrossedPairPads(init, names[|names| - 1], j);
      ZeroPaddedTrans(rows[j], init[j], CrossedAll(rows, names)[j]);
    }
  }

  /** After the pass, for every holding, each of its two keys and every
      adjacent pair of rows: when either row holds a nonzero value under the
      key, both rows define it, so every area starts and ends at 0. */
  lemma {:induction false} CrossedAllCloses(rows: seq<map<string, real>>, names: seq<string>, k: nat, j: nat)
    requires k < |names| && j + 1 < |rows|
    ensures ClosedAt(CrossedAll(rows, names), names[k] + "+", j)
    ensures ClosedAt(CrossedAll(rows, names), names[k] + "-", j)
  {
    var last := |names| - 1;
    var init := CrossedAll(rows, names[..last]);
    if k < last {
      CrossedAllCloses(rows, names[..last], k, j);
      assert names[..last][k] == names[k];
      PairKeepsClosed(init, names[last], names[k] + "+", j);
      PairKeepsClosed(init, names[last], names[k] + "-", j);
    } else {
      CrossedPairCloses(init, names[k], j);
    }
  }

  /** A later holding's pass keeps a closed pair closed. */
  lemma PairKeepsClosed(rows: seq<map<string, real>>, name: string, key: string, j: nat)
    requires j + 1 < |rows| && ClosedAt(rows, key, j)
    ensures ClosedAt(CrossedPair(rows, name), key, j)
  {
    CrossedPairPads(rows, name, j);
    CrossedPairPads(rows, name, j + 1);
    PaddedStaysClosed(rows, CrossedPair(rows, name), key, j);
  }

  /** A holding's own pass closes both of its keys at every pair. */
  lemma CrossedPairCloses(rows: seq<map<string, real>>, name: string, j: nat)
    requires j + 1 < |rows|
    ensures ClosedAt(CrossedPair(rows, name), name + "+", j)
    ensures ClosedAt(CrossedPair(rows, name), name + "-", j)
  {
    var m := Crossed(rows, name + "+");
    var r := CrossedPair(rows, name);
    CrossedCloses(rows, name + "+", j);
    CrossedUpToPads(m, name + "-", Pairs(m), j);
    CrossedUpToPads(m, name + "-", Pairs(m), j + 1);
    PaddedStaysClosed(m, r, name + "+", j);
    CrossedCloses(m, name + "-", j);
  }

  /** The profit series of every holding, in holding order. */
  function ProfitTable(hs: seq<Holding>, prices: map<string, seq<Point>>, isUSD: map<string, bool>,
                       exrates: map<int, real>, xs: seq<real>, withFx: bool): (t: seq<seq<Option<real>>>)
    requires forall i :: 0 <= i < |hs| ==> hs[i].code in prices && |prices[hs[i].code]| > 0
    ensures |t| == |hs| && forall i :: 0 <= i < |hs| ==> |t[i]| == |xs|
  {
    seq(|hs|, q requires 0 <= q < |hs| => StockProfits(hs[q], prices[hs[q].code], isUSD, exrates, xs, withFx))
  }

  /** The rows of the profit chart before the sign-crossing pass. */
  function ProfitRows(xs: seq<real>, names: seq<string>, profits: seq<seq<Option<real>>>,
                      exrates: map<int, real>): (rows: seq<map<string, real>>)
    requires |names| == |profits|
    requires forall k :: 0 <= k < |profits| ==> |profits[k]| == |xs|
    ensures |rows| == |xs|
  {
    seq(|xs|, i requires 0 <= i < |xs| => ProfitRow(xs[i], names, profits, i, ExrateCell(exrates, xs[i])))
  }

  /** The data of the profit chart: one row per grid point, then the
      sign-crossing pass over the holdings' labels. */
  method ProfitChartData(sc: StockCollection.Collection, xs: seq<real>, withFx: bool)
    returns (data: array<map<string, real>>)
    requires NonDecreasing(xs)
    requires forall i :: 0 <= i < |sc.holdings| ==>
      sc.holdings[i].code in sc.prices && |sc.prices[sc.holdings[i].code]| > 0
    ensures fresh(data)
    ensures var profits := ProfitTable(sc.holdings, sc.prices, sc.isUSD, sc.exrates, xs, withFx);
      data[..] == CrossedAll(ProfitRows(xs, HoldingNames(sc.holdings), profits, sc.exrates), HoldingNames(sc.holdings))
  {
    var profits := AllProfits(sc, xs, withFx);
    assert profits == ProfitTable(sc.holdings, sc.prices, sc.isUSD, sc.exrates, xs, withFx);
    var names := HoldingNames(sc.holdings);
    data := ProfitRowsArray(xs, names, profits, sc.exrates);
    InsertCrossingZeros(data, names);
  }

  /** `xs.map((x, i) => ...)`: one fresh row per grid point. */
  method ProfitRowsArray(xs: seq<real>, names: seq<string>, profits: seq<seq<Option<real>>>,
                         exrates: map<int, real>) returns (data: array<map<string, real>>)
    requires |names| == |profits|
    requires forall k :: 0 <= k < |profits| ==> |profits[k]| == |xs|
    ensures fresh(data)
    ensures data[..] == ProfitRows(xs, names, profits, exrates)
  {
    data := new map<string, real>[|xs|];
    for i := 0 to |xs|
      invariant forall q :: 0 <= q < i ==> data[q] == ProfitRow(xs[q], names, profits, q, ExrateCell(exrates, xs[q]))
    {
      data[i] := BuildProfitRow(xs[i], i, names, profits, exrates);
    }
    assert data[..] == ProfitRows(xs, names, profits, exrates);
  }

  // ---------------------------------------------------------------------
  // Dividends (`get_stock_dividends`)
  // ---------------------------------------------------------------------

  /** July 2019 as a month count (year * 12 + zero-based month): the month of
      `new Date("2019-07-01")`. */
  const DividendEpoch: int := 2019 * 12 + 6

  /** `new Date("2019-07-01").getTime()`: UTC midnight of 2019-07-01, the
      instant the boundary walk starts from. */
  const DividendEpochMs: int := 1561939200000

  /** Instants strictly increase along the boundaries. */
  predicate Increasing(xs: seq<int>) {
    forall i, j :: 0 <= i < j < |xs| ==> xs[i] < xs[j]
  }

  /** The half-year boundaries: starting from `new Date("2019-07-01")`,
      step six months at a time while the current instant is before `now`,
      recording each stepped-to instant.  `monthStart(m)` is the instant
      the caller's local calendar reaches after stepping the epoch instant
      forward to month count `m`. */
  method HalfYearBoundaries(monthStart: int -> int, now: int) returns (xs: seq<int>)
    requires forall a, b :: a < b ==> monthStart(a) < monthStart(b)
    requires monthStart(DividendEpoch) == DividendEpochMs
    ensures forall i :: 0 <= i < |xs| ==> xs[i] == monthStart(DividendEpoch + 6 * (i + 1))
    ensures |xs| == 0 <==> now <= DividendEpochMs
    ensures forall i :: 0 <= i < |xs| - 1 ==> xs[i] < now
    ensures |xs| > 0 ==> now <= xs[|xs| - 1]
    ensures Increasing(xs)
  {
    xs := [];
    var m := DividendEpoch;
    while monthStart(m) < now
      invariant m == DividendEpoch + 6 * |xs|
      invariant forall i :: 0 <= i < |xs| ==> xs[i] == monthStart(DividendEpoch + 6 * (i + 1))
      invariant forall i :: 0 <= i < |xs| - 1 ==> xs[i] < now
      invariant |xs| > 0 ==> monthStart(DividendEpoch) < now
      invariant Increasing(xs)
      decreases now - monthStart(m)
    {
      assert monthStart(m) < monthStart(m + 6);
      m := m + 6;
      xs := xs + [monthStart(m)];
    }
  }

  /** The dividend cursor `while (dividends[k]?.date < x && k < dividends.length)`
      started from 0: the first dividend dated at or after `x`, or the end. */
  function DivIndex(divs: seq<Point>, x: int): (k: nat)
    ensures k <= |divs|
    ensures forall i :: 0 <= i < k ==> divs[i].date < x
    ensures k == |divs| || x <= divs[k].date
  {
    if |divs| == 0 || x <= divs[0].date then 0 else 1 + DivIndex(divs[1..], x)
  }

  /** Any index where the dividend loop can stop is the one `DivIndex` picks. */
  lemma {:induction false} DivIndexUnique(divs: seq<Point>, x: int, k: nat)
    requires k <= |divs|
    requires forall i :: 0 <= i < k ==> divs[i].date < x
    requires k == |divs| || x <= divs[k].date
    ensures DivIndex(divs, x) == k
  {
    if k > 0 {
      assert divs[0].date < x;
      forall i | 0 <= i < k - 1 ensures divs[1..][i].date < x {
        assert divs[1..][i] == divs[i + 1];
      }
      DivIndexUnique(divs[1..], x, k - 1);
    }
  }

  lemma DivIndexMonotone(divs: seq<Point>, x: int, y: int)
    requires x <= y
    ensures DivIndex(divs, x) <= DivIndex(divs, y)
  {
  }

  /** Where the half before boundary `i` starts in the dividend list. */
  function BucketStart(divs: seq<Point>, xs: seq<int>, i: nat): (lo: nat)
    requires Increasing(xs) && i < |xs|
    ensures lo <= DivIndex(divs, xs[i])
  {
    if i == 0 then 0
    else
      DivIndexMonotone(divs, xs[i - 1], xs[i]);
      DivIndex(divs, xs[i - 1])
  }

  /** `val` at boundary `i`: the dividends the cursor passes on the way to
      it; the first half takes everything before the first boundary. */
  function Half(divs: seq<Point>, xs: seq<int>, i: nat): real
    requires Increasing(xs) && i < |xs|
  {
    var lo := BucketStart(divs, xs, i);
    var hi := DivIndex(divs, xs[i]);
    SumValues(divs[lo..hi])
  }

  /** `sum` at boundary `i`: every dividend dated before it. */
  function Cumulated(divs: seq<Point>, x: int): real {
    SumValues(divs[..DivIndex(divs, x)])
  }

  /** `amount * v * jpy_rate`, NaN when the rate is undefined. */
  function Scaled(amount: real, v: real, rate: Option<real>): Option<real> {
    if rate.Some? then Some(amount * v * rate.value) else None
  }

  /** One value of the dividend chart by display mode: "sum", "half", or
      "rate" (the half's yield on the price, doubled); any other mode, a
      zero price and an instant outside the holding's window give NaN. */
  function DividendAt(h: Holding, mode: string, rate: Option<real>, half: real, sum: real,
                      price: real, x: int): Option<real>
  {
    if !(h.start <= x <= h.end) then None
    else if mode == "sum" then Scaled(h.amount, sum, rate)
    else if mode == "half" then Scaled(h.amount, half, rate)
    else if mode == "rate" then (if price != 0.0 then Some(Yield(half, price)) else None)
    else None
  }

  /** `(val / price) * 2`: the half's yield on the price, taken as a year's. */
  function Yield(half: real, price: real): real
    requires price != 0.0
  {
    half / price * 2.0
  }

  /** The value at boundary `i` of a holding with dividends on record;
      `rate` is today's rate, used at every boundary. */
  function DividendPoint(h: Holding, prices: seq<Point>, divs: seq<Point>, mode: string,
                         rate: Option<real>, xs: seq<int>, i: nat): Option<real>
    requires |prices| > 0 && Increasing(xs) && i < |xs|
  {
    DividendAt(h, mode, rate, Half(divs, xs, i), Cumulated(divs, xs[i]),
               prices[PriceIndex(prices, xs[i] as real)].value, xs[i])
  }

  /** The dividend series of one holding with dividends on record. */
  function DividendValues(h: Holding, prices: seq<Point>, divs: seq<Point>, mode: string,
                          rate: Option<real>, xs: seq<int>): seq<Option<real>>
    requires |prices| > 0 && Increasing(xs)
  {
    seq(|xs|, i requires 0 <= i < |xs| => DividendPoint(h, prices, divs, mode, rate, xs, i))
  }

  /** The sum of a list split at `m` is the sum of its two parts. */
  lemma {:induction false} SumValuesSplit(ps: seq<Point>, m: nat)
    requires m <= |ps|
    ensures SumValues(ps) == SumValues(ps[..m]) + SumValues(ps[m..])
  {
    if m < |ps| {
      var init := ps[..|ps| - 1];
      SumValuesSplit(init, m);
      assert init[..m] == ps[..m];
      assert ps[m..][..|ps[m..]| - 1] == init[m..];
    } else {
      assert ps[..m] == ps;
    }
  }

  /** The dividend loop resumed from `k0`, every dividend before which is
      already known to be earlier than `x`: it stops where `DivIndex` points,
      having added up the values it passed. */
  method PassDividends(divs: seq<Point>, x: int, k0: nat) returns (k: nat, val: real)
    requires k0 <= |divs|
    requires forall p :: 0 <= p < k0 ==> divs[p].date < x
    ensures k0 <= k == DivIndex(divs, x)
    ensures val == SumValues(divs[k0..k])
  {
    k := k0;
    val := 0.0;
    while k < |divs| && divs[k].date < x
      invariant k0 <= k <= |divs|
      invariant forall p :: 0 <= p < k ==> divs[p].date < x
      invariant val == SumValues(divs[k0..k])
    {
      assert divs[k0..k + 1][..k - k0] == divs[k0..k];
      val := val + divs[k].value;
      k := k + 1;
    }
    DivIndexUnique(divs, x, k);
  }

  /** The running total after a half is the total before it plus the half. */
  lemma RunningSum(divs: seq<Point>, k0: nat, k: nat)
    requires k0 <= k <= |divs|
    ensures SumValues(divs[..k]) == SumValues(divs[..k0]) + SumValues(divs[k0..k])
  {
    SumValuesSplit(divs[..k], k0);
    assert divs[..k][..k0] == divs[..k0] && divs[..k][k0..] == divs[k0..k];
  }

  /** The per-holding loop: cursor `k` over the dividends accumulating
      `val`, cursor `n` over the prices, running total `sum`. */
  method HoldingDividends(h: Holding, prices: seq<Point>, divs: seq<Point>, mode: string,
                          rate: Option<real>, xs: seq<int>) returns (vals: seq<Option<real>>)
    requires |prices| > 0 && Increasing(xs)
    ensures vals == DividendValues(h, prices, divs, mode, rate, xs)
  {
    vals := [];
    var k := 0;
    var n := 0;
    var sum := 0.0;
    for i := 0 to |xs|
      invariant |vals| == i
      invariant n < |prices| && k <= |divs|
      invariant i == 0 ==> k == 0 && n == 0
      invariant i > 0 ==> k == DivIndex(divs, xs[i - 1]) && n == PriceIndex(prices, xs[i - 1] as real)
      invariant sum == SumValues(divs[..k])
      invariant forall q :: 0 <= q < i ==> vals[q] == DividendPoint(h, prices, divs, mode, rate, xs, q)
    {
      var x := xs[i];
      assert i > 0 ==> xs[i - 1] < x;
      assert k == BucketStart(divs, xs, i);
      ghost var k0 := k;
      var val;
      k, val := PassDividends(divs, x, k);
      n := Advance(prices, x as real, n);
      DividendStep(h, prices, divs, mode, rate, xs, i, k0, k, n, sum, val);
      sum := sum + val;
      var dividend := DividendAt(h, mode, rate, val, sum, prices[n].value, x);
      vals := vals + [dividend];
    }
  }

  /** One boundary of the loop: the dividends passed form the half, the
      running total grows by it, and the value is the boundary's point. */
  lemma DividendStep(h: Holding, prices: seq<Point>, divs: seq<Point>, mode: string, rate: Option<real>,
                     xs: seq<int>, i: nat, k0: nat, k: nat, n: nat, sum: real, val: real)
    requires |prices| > 0 && Increasing(xs) && i < |xs|
    requires k0 == BucketStart(divs, xs, i) && k == DivIndex(divs, xs[i])
    requires val == SumValues(divs[k0..k]) && sum == SumValues(divs[..k0])
    requires n == PriceIndex(prices, xs[i] as real)
    ensures sum + val == SumValues(divs[..k])
    ensures DividendAt(h, mode, rate, val, sum + val, prices[n].value, xs[i]) == DividendPoint(h, prices, divs, mode, rate, xs, i)
  {
    RunningSum(divs, k0, k);
  }

  /** `get_stock_dividends`: the half-year boundaries, then one series per
      holding in holding order, empty for a code with no dividends on
      record; every value uses the rate of `now`. */
  method StockDividends(sc: StockCollection.Collection, mode: string, now: int, monthStart: int -> int)
    returns (xs: seq<int>, series: seq<seq<Option<real>>>)
    requires forall a, b :: a < b ==> monthStart(a) < monthStart(b)
    requires monthStart(DividendEpoch) == DividendEpochMs
    requires forall i :: 0 <= i < |sc.holdings| && sc.holdings[i].code in sc.dividends ==>
      sc.holdings[i].code in sc.prices && |sc.prices[sc.holdings[i].code]| > 0
    ensures Increasing(xs) && forall i :: 0 <= i < |xs| ==> xs[i] == monthStart(DividendEpoch + 6 * (i + 1))
    ensures |xs| == 0 <==> now <= DividendEpochMs
    ensures |series| == |sc.holdings|
    ensures forall i :: 0 <= i < |series| ==>
      series[i] == DividendSeries(sc.holdings[i], sc.prices, sc.dividends, mode,
                                  JpyRate(sc.holdings[i].code, now as real, sc.isUSD, sc.exrates), xs)
  {
    xs := HalfYearBoundaries(monthStart, now);
    series := [];
    for i := 0 to |sc.holdings|
      invariant |series| == i
      invariant forall q :: 0 <= q < i ==>
        series[q] == DividendSeries(sc.holdings[q], sc.prices, sc.dividends, mode,
                                    JpyRate(sc.holdings[q].code, now as real, sc.isUSD, sc.exrates), xs)
    {
      var h := sc.holdings[i];
      var vals: seq<Option<real>> := [];
      var rate := JpyRate(h.code, now as real, sc.isUSD, sc.exrates);
      if h.code in sc.dividends {
        vals := HoldingDividends(h, sc.prices[h.code], sc.dividends[h.code], mode, rate, xs);
      }
      assert vals == DividendSeries(h, sc.prices, sc.dividends, mode, rate, xs);
      series := series + [vals];
    }
  }

  /** The series of one holding: empty for a code with no dividends on
      record, otherwise its dividend values at `rate`. */
  function DividendSeries(h: Holding, prices: map<string, seq<Point>>, dividends: map<string, seq<Point>>,
                          mode: string, rate: Option<real>, xs: seq<int>): seq<Option<real>>
    requires Increasing(xs)
    requires h.code in dividends ==> h.code in prices && |prices[h.code]| > 0
  {
    if h.code in dividends then DividendValues(h, prices[h.code], dividends[h.code], mode, rate, xs) else []
  }

  /** The halves up to and including boundary `i`, added up. */
  function HalfTotal(divs: seq<Point>, xs: seq<int>, i: nat): real
    requires Increasing(xs) && i < |xs|
  {
    (if i == 0 then 0.0 else HalfTotal(divs, xs, i - 1)) + Half(divs, xs, i)
  }

  /** The running total telescopes: `sum` at boundary `i` is the sum of the
      halves up to it, so each dividend is counted in one half only. */
  lemma {:induction false} CumulatedIsHalfTotal(divs: seq<Point>, xs: seq<int>, i: nat)
    requires Increasing(xs) && i < |xs|
    ensures Cumulated(divs, xs[i]) == HalfTotal(divs, xs, i)
  {
    var hi := DivIndex(divs, xs[i]);
    if i == 0 {
      assert divs[0..hi] == divs[..hi];
    } else {
      CumulatedIsHalfTotal(divs, xs, i - 1);
      var lo := DivIndex(divs, xs[i - 1]);
      DivIndexMonotone(divs, xs[i - 1], xs[i]);
      RunningSum(divs, lo, hi);
    }
  }

  /** On an ascending dividend history the cursor splits it by date. */
  lemma DivIndexSplits(divs: seq<Point>, x: int, p: nat)
    requires Ascending(divs) && p < |divs|
    ensures p < DivIndex(divs, x) <==> divs[p].date < x
  {
    var k := DivIndex(divs, x);
    if k <= p {
      assert divs[k].date <= divs[p].date;
    }
  }

  /** The half before boundary `i` holds exactly the dividends dated from
      the previous boundary (from the beginning, for the first) up to but
      excluding boundary `i`. */
  lemma HalfMembers(divs: seq<Point>, xs: seq<int>, i: nat, p: nat)
    requires Ascending(divs) && Increasing(xs) && i < |xs| && p < |divs|
    ensures BucketStart(divs, xs, i) <= p < DivIndex(divs, xs[i]) <==>
      (i == 0 || xs[i - 1] <= divs[p].date) && divs[p].date < xs[i]
  {
    DivIndexSplits(divs, xs[i], p);
    if i > 0 {
      DivIndexSplits(divs, xs[i - 1], p);
    }
  }

  lemma {:induction false} SumValuesNonnegative(ps: seq<Point>)
    requires forall p :: 0 <= p < |ps| ==> ps[p].value >= 0.0
    ensures SumValues(ps) >= 0.0
  {
    if |ps| > 0 {
      var init := ps[..|ps| - 1];
      forall p | 0 <= p < |init| ensures init[p].value >= 0.0 {
        assert init[p] == ps[p];
      }
      SumValuesNonnegative(init);
    }
  }

  /** With no negative dividend, the running total never decreases. */
  lemma CumulatedMonotone(divs: seq<Point>, x: int, y: int)
    requires forall p :: 0 <= p < |divs| ==> divs[p].value >= 0.0
    requires x <= y
    ensures Cumulated(divs, x) <= Cumulated(divs, y)
  {
    var a := DivIndex(divs, x);
    var b := DivIndex(divs, y);
    DivIndexMonotone(divs, x, y);
    RunningSum(divs, a, b);
    forall p | 0 <= p < |divs[a..b]| ensures divs[a..b][p].value >= 0.0 {
      assert divs[a..b][p] == divs[a + p];
    }
    SumValuesNonnegative(divs[a..b]);
  }

  lemma ScaledMonotone(amount: real, u: real, v: real, r: real)
    requires amount >= 0.0 && r >= 0.0 && u <= v
    ensures amount * u * r <= amount * v * r
  {
    assert amount * (v - u) >= 0.0;
    assert amount * (v - u) * r >= 0.0;
    assert amount * v * r - amount * u * r == amount * (v - u) * r;
  }

  /** In "sum" mode, with a non-negative quantity, rate and dividends, the
      chart never goes down across the boundaries where the holding is held. */
  lemma SumModeNonDecreasing(h: Holding, prices: seq<Point>, divs: seq<Point>,
                             rate: Option<real>, xs: seq<int>, i: nat, j: nat)
    requires |prices| > 0 && Increasing(xs) && i <= j < |xs|
    requires h.amount >= 0.0 && rate.Some? && rate.value >= 0.0
    requires forall p :: 0 <= p < |divs| ==> divs[p].value >= 0.0
    ensures var vs := DividendValues(h, prices, divs, "sum", rate, xs);
      vs[i].Some? && vs[j].Some? ==> vs[i].value <= vs[j].value
  {
    var vs := DividendValues(h, prices, divs, "sum", rate, xs);
    assert vs[i] == DividendPoint(h, prices, divs, "sum", rate, xs, i);
    assert vs[j] == DividendPoint(h, prices, divs, "sum", rate, xs, j);
    SumModePoint(h, prices, divs, rate, xs, i);
    SumModePoint(h, prices, divs, rate, xs, j);
    assert xs[i] <= xs[j];
    CumulatedMonotone(divs, xs[i], xs[j]);
    ScaledMonotone(h.amount, Cumulated(divs, xs[i]), Cumulated(divs, xs[j]), rate.value);
  }

  lemma SumModePoint(h: Holding, prices: seq<Point>, divs: seq<Point>, rate: Option<real>, xs: seq<int>, i: nat)
    requires |prices| > 0 && Increasing(xs) && i < |xs|
    ensures var v := DividendPoint(h, prices, divs, "sum", rate, xs, i);
      v.Some? ==> rate.Some? && v.value == h.amount * Cumulated(divs, xs[i]) * rate.value
  {
    var v := DividendPoint(h, prices, divs, "sum", rate, xs, i);
    if v.Some? {
      assert v == Scaled(h.amount, Cumulated(divs, xs[i]), rate);
    }
  }

  /** Values are present only at boundaries inside the holding's window, and
      there "sum" and "half" scale the running total and the half by
      quantity and today's rate, while "rate" is twice the half's yield on
      the price under the cursor. */
  lemma DividendPointSpec(h: Holding, prices: seq<Point>, divs: seq<Point>, mode: string,
                          rate: Option<real>, xs: seq<int>, i: nat)
    requires |prices| > 0 && Increasing(xs) && i < |xs|
    ensures var v := DividendPoint(h, prices, divs, mode, rate, xs, i);
      && (v.Some? ==> h.start <= xs[i] <= h.end)
      && (h.start <= xs[i] <= h.end && mode == "sum" ==> v == Scaled(h.amount, HalfTotal(divs, xs, i), rate))
      && (h.start <= xs[i] <= h.end && mode == "half" ==> v == Scaled(h.amount, Half(divs, xs, i), rate))
      && (h.start <= xs[i] <= h.end && mode == "rate" ==>
           var price := prices[PriceIndex(prices, xs[i] as real)].value;
           v == if price != 0.0 then Some(Yield(Half(divs, xs, i), price)) else None)
      && (mode != "sum" && mode != "half" && mode != "rate" ==> v == None)
  {
    CumulatedIsHalfTotal(divs, xs, i);
  }
}
