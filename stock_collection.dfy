/** The stock collection of the money page: the holdings, the price and
    dividend histories grouped by instrument code, the USD flag of each
    held code, and the JPY-per-USD table keyed by UTC calendar day.  The
    table is patched twice after loading: the trailing gap up to today is
    filled with the last stored rate, and later the run of days ending today
    that share today's value is replaced by the live rate. */
module StockCollection {
  import opened Series

  const MsPerDay: int := 86400000

  /** A held position: `amount` is the quantity, `acqPrice` and `acqRate`
      the acquisition price and exchange rate, `[start, end]` its window. */
  datatype Holding = Holding(code: string, name: string, amount: real,
                             acqPrice: real, acqRate: real, start: int, end: int)

  /** A stored price row (its `price`) or dividend row (its `amount`). */
  datatype Row = Row(date: int, code: string, value: real)

  /** A stored exchange-rate row: a UTC day and the JPY-per-USD rate. */
  datatype RateRow = RateRow(day: int, price: real)

  /** `date2str`: the first ten characters of the ISO string name the UTC
      calendar day holding the instant; the model numbers days from the epoch. */
  function DayKey(ms: int): (d: int)
    ensures d * MsPerDay <= ms < d * MsPerDay + MsPerDay
  {
    ms / MsPerDay
  }

  /** A code is priced in dollars unless it ends with ".T" (Tokyo listing). */
  predicate IsUsdCode(code: string) {
    !(|code| >= 2 && code[|code| - 2..] == ".T")
  }

  /** `m[d]`, or undefined. */
  function Lookup(m: map<int, real>, d: int): Option<real> {
    if d in m then Some(m[d]) else None
  }

  /** `get_jpy_rate`: 1.0 unless the code is flagged USD, else the table entry
      of the instant's UTC day (undefined when that day has no entry). */
  function JpyRate(code: string, x: real, isUSD: map<string, bool>, exrates: map<int, real>): Option<real> {
    if code in isUSD && isUSD[code] then Lookup(exrates, DayKey(Trunc(x))) else Some(1.0)
  }

  /** A code that is not flagged USD is valued at rate 1.0 whatever the instant. */
  lemma YenCodeRateIsOne(code: string, isUSD: map<string, bool>, exrates: map<int, real>)
    requires !(code in isUSD && isUSD[code])
    ensures forall x :: JpyRate(code, x, isUSD, exrates) == Some(1.0)
  {
  }

  /** For a USD code the rate of an instant (after 1970) is the entry of the
      UTC day that contains it. */
  lemma UsdRateIsDayEntry(code: string, x: real, d: int, isUSD: map<string, bool>, exrates: map<int, real>)
    requires code in isUSD && isUSD[code]
    requires 0.0 <= x
    requires (d * MsPerDay) as real <= x < ((d + 1) * MsPerDay) as real
    ensures JpyRate(code, x, isUSD, exrates) == Lookup(exrates, d)
  {
    var t := Trunc(x);
    assert d * MsPerDay <= t < (d + 1) * MsPerDay;
    var k := DayKey(t);
    assert k * MsPerDay <= t < k * MsPerDay + MsPerDay;
    if k < d {
      MulMono(k + 1, d);
    } else if k > d {
      MulMono(d + 1, k);
    }
  }

  lemma MulMono(a: int, b: int)
    requires a <= b
    ensures a * MsPerDay <= b * MsPerDay
  {
  }

  // ---------------------------------------------------------------------
  // Shaping the stored rows (the collection-building effect)
  // ---------------------------------------------------------------------

  function HoldingCodes(hs: seq<Holding>): set<string> {
    set i | 0 <= i < |hs| :: hs[i].code
  }

  /** The loop `isUSD[x.code] = !x.code.endsWith(".T")` over the holdings. */
  method FlagUsd(hs: seq<Holding>) returns (isUSD: map<string, bool>)
    ensures isUSD.Keys == HoldingCodes(hs)
    ensures forall c :: c in isUSD ==> (isUSD[c] <==> IsUsdCode(c))
  {
    isUSD := map[];
    for i := 0 to |hs|
      invariant isUSD.Keys == HoldingCodes(hs[..i])
      invariant forall c :: c in isUSD ==> (isUSD[c] <==> IsUsdCode(c))
    {
      assert HoldingCodes(hs[..i + 1]) == HoldingCodes(hs[..i]) + {hs[i].code} by {
        assert forall j :: 0 <= j < i ==> hs[..i + 1][j] == hs[..i][j];
      }
      isUSD := isUSD[hs[i].code := IsUsdCode(hs[i].code)];
    }
    assert hs[..|hs|] == hs;
  }

  function RowCodes(rows: seq<Row>): set<string> {
    set i | 0 <= i < |rows| :: rows[i].code
  }

  /** The points of the rows with code `c`, in row order. */
  function OfCode(rows: seq<Row>, c: string): seq<Point> {
    if |rows| == 0 then []
    else
      var last := rows[|rows| - 1];
      OfCode(rows[..|rows| - 1], c) + (if last.code == c then [Point(last.date, last.value)] else [])
  }

  /** A code no row carries has no points. */
  lemma {:induction false} OfCodeAbsent(rows: seq<Row>, c: string)
    requires c !in RowCodes(rows)
    ensures OfCode(rows, c) == []
  {
    if |rows| > 0 {
      var init := rows[..|rows| - 1];
      assert RowCodes(init) <= RowCodes(rows) by {
        forall j | 0 <= j < |init| ensures init[j] == rows[j] { }
      }
      OfCodeAbsent(init, c);
    }
  }

  /** The loops `prices[x.code] ??= []; prices[x.code].push({date, value})`
      (and the same for dividends). */
  method GroupByCode(rows: seq<Row>) returns (groups: map<string, seq<Point>>)
    ensures groups.Keys == RowCodes(rows)
    ensures forall c :: c in groups ==> groups[c] == OfCode(rows, c)
  {
    groups := map[];
    for i := 0 to |rows|
      invariant groups.Keys == RowCodes(rows[..i])
      invariant forall c :: c in groups ==> groups[c] == OfCode(rows[..i], c)
    {
      var r := rows[i];
      assert rows[..i + 1][..i] == rows[..i];
      assert RowCodes(rows[..i + 1]) == RowCodes(rows[..i]) + {r.code} by {
        assert forall j :: 0 <= j < i ==> rows[..i + 1][j] == rows[..i][j];
      }
      if r.code !in groups {
        OfCodeAbsent(rows[..i], r.code);
        groups := groups[r.code := []];
      }
      groups := groups[r.code := groups[r.code] + [Point(r.date, r.value)]];
    }
    assert rows[..|rows|] == rows;
  }

  /** Every row lands in the group of its own code, right after the rows of
      that code that precede it. */
  lemma {:induction false} OfCodePlacement(rows: seq<Row>, i: nat)
    requires i < |rows|
    ensures var c := rows[i].code;
      |OfCode(rows[..i], c)| < |OfCode(rows, c)| &&
      OfCode(rows, c)[|OfCode(rows[..i], c)|] == Point(rows[i].date, rows[i].value)
  {
    var c := rows[i].code;
    if i == |rows| - 1 {
      assert rows[..|rows| - 1] == rows[..i];
    } else {
      var init := rows[..|rows| - 1];
      assert init[..i] == rows[..i];
      OfCodePlacement(init, i);
    }
  }

  /** Every point of a group comes from a row of that code. */
  lemma {:induction false} OfCodeSource(rows: seq<Row>, c: string, k: nat) returns (i: nat)
    requires k < |OfCode(rows, c)|
    ensures i < |rows| && rows[i].code == c && OfCode(rows, c)[k] == Point(rows[i].date, rows[i].value)
  {
    var init := rows[..|rows| - 1];
    var g := OfCode(init, c);
    if k < |g| {
      i := OfCodeSource(init, c, k);
      assert init[i] == rows[i];
    } else {
      i := |rows| - 1;
    }
  }

  /** Rows stored in date order give date-ordered groups. */
  lemma {:induction false} OfCodeAscending(rows: seq<Row>, c: string)
    requires forall i, j :: 0 <= i < j < |rows| ==> rows[i].date <= rows[j].date
    ensures Ascending(OfCode(rows, c))
  {
    if |rows| > 0 {
      var init := rows[..|rows| - 1];
      var last := rows[|rows| - 1];
      OfCodeAscending(init, c);
      var g := OfCode(init, c);
      forall k | 0 <= k < |g| ensures g[k].date <= last.date {
        var i := OfCodeSource(init, c, k);
        assert init[i] == rows[i];
      }
    }
  }

  /** `exrates[x.date] = x.price` over the stored rate rows: a later row of
      the same day overwrites an earlier one. */
  function RateTable(rows: seq<RateRow>): map<int, real> {
    if |rows| == 0 then map[]
    else RateTable(rows[..|rows| - 1])[rows[|rows| - 1].day := rows[|rows| - 1].price]
  }

  /** The table holds exactly the stored days. */
  lemma {:induction false} RateTableKeys(rows: seq<RateRow>)
    ensures RateTable(rows).Keys == set i | 0 <= i < |rows| :: rows[i].day
  {
    if |rows| > 0 {
      var init := rows[..|rows| - 1];
      RateTableKeys(init);
      assert (set i | 0 <= i < |rows| :: rows[i].day) == (set i | 0 <= i < |init| :: init[i].day) + {rows[|rows| - 1].day} by {
        forall j | 0 <= j < |init| ensures init[j] == rows[j] { }
      }
    }
  }

  /** Each stored day holds the rate of the last row of that day. */
  lemma {:induction false} RateTableLastWins(rows: seq<RateRow>)
    ensures forall i :: 0 <= i < |rows| && (forall j :: i < j < |rows| ==> rows[j].day != rows[i].day) ==>
      rows[i].day in RateTable(rows) && RateTable(rows)[rows[i].day] == rows[i].price
  {
    if |rows| > 0 {
      var init := rows[..|rows| - 1];
      RateTableLastWins(init);
      forall i | 0 <= i < |rows| - 1 && (forall j :: i < j < |rows| ==> rows[j].day != rows[i].day)
        ensures rows[i].day in RateTable(rows) && RateTable(rows)[rows[i].day] == rows[i].price
      {
        assert init[i] == rows[i];
        assert forall j :: i < j < |init| ==> init[j].day != init[i].day by {
          forall j | i < j < |init| ensures init[j].day != init[i].day {
            assert init[j] == rows[j];
          }
        }
      }
    }
  }

  method IndexRates(rows: seq<RateRow>) returns (exrates: map<int, real>)
    ensures exrates == RateTable(rows)
  {
    exrates := map[];
    for i := 0 to |rows|
      invariant exrates == RateTable(rows[..i])
    {
      assert rows[..i + 1][..i] == rows[..i];
      exrates := exrates[rows[i].day := rows[i].price];
    }
    assert rows[..|rows|] == rows;
  }

  // ---------------------------------------------------------------------
  // The run of days ending today: shared by gap-fill and the live override
  // ---------------------------------------------------------------------

  /** `b` is the latest day up to today whose lookup differs from today's:
      every day after `b` up to today looks up the same as today. */
  ghost predicate RunsTo(m: map<int, real>, today: int, b: int) {
    && b <= today
    && Lookup(m, b) != Lookup(m, today)
    && forall e :: b < e <= today ==> Lookup(m, e) == Lookup(m, today)
  }

  lemma SomeDayBelowAll(s: set<int>) returns (w: int)
    ensures forall k :: k in s ==> w < k
    decreases s
  {
    if x :| x in s {
      var v := SomeDayBelowAll(s - {x});
      w := if x <= v then x - 1 else v;
      forall k | k in s ensures w < k {
        if k != x {
          assert k in s - {x};
        }
      }
    } else {
      w := 0;
    }
  }

  lemma {:induction false} TopBreak(m: map<int, real>, today: int, hi: int, w: int)
    requires w <= hi <= today
    requires Lookup(m, w) != Lookup(m, today)
    requires forall e :: hi < e <= today ==> Lookup(m, e) == Lookup(m, today)
    ensures exists b :: RunsTo(m, today, b)
    decreases hi - w
  {
    if Lookup(m, hi) != Lookup(m, today) {
      assert RunsTo(m, today, hi);
    } else {
      TopBreak(m, today, hi - 1, w);
    }
  }

  lemma RunBreakExists(m: map<int, real>, today: int)
    requires exists d :: d in m && d <= today
    ensures exists b :: RunsTo(m, today, b)
  {
    var w: int;
    if today in m {
      w := SomeDayBelowAll(m.Keys);
      assert w !in m;
      if w > today {
        assert false;
      }
    } else {
      w :| w in m && w <= today;
    }
    TopBreak(m, today, today, w);
  }

  /** Where the backward walk from today stops. */
  ghost function RunBreak(m: map<int, real>, today: int): (b: int)
    requires exists d :: d in m && d <= today
    ensures RunsTo(m, today, b)
  {
    RunBreakExists(m, today);
    var b :| RunsTo(m, today, b); b
  }

  lemma RunBreakUnique(m: map<int, real>, today: int, b: int)
    requires RunsTo(m, today, b)
    ensures RunBreak(m, today) == b
  {
    var r := RunBreak(m, today);
    assert !(r < b) by {
      assert b < r ==> Lookup(m, r) == Lookup(m, today);
    }
  }

  /** The days after `lo` up to `hi`, each mapped to `v`. */
  function Run(lo: int, hi: int, v: real): (r: map<int, real>)
    ensures forall d :: d in r <==> lo < d <= hi
    ensures forall d :: d in r ==> r[d] == v
    decreases hi - lo
  {
    if hi <= lo then map[] else Run(lo, hi - 1, v)[hi := v]
  }

  /** Gap-fill (the `while (true)` walk from today): nothing to do when today
      has a rate, otherwise every day after the nearest stored day up to
      today gets the placeholder. */
  ghost function GapFilled(m: map<int, real>, placeholder: real, today: int): map<int, real>
    requires exists d :: d in m && d <= today
  {
    if today in m then m
    else m + Run(RunBreak(m, today), today, placeholder)
  }

  /** Live override: the run of days ending today that look up the same as
      today all get the live rate. */
  ghost function Overridden(m: map<int, real>, live: real, today: int): map<int, real>
    requires exists d :: d in m && d <= today
  {
    m + Run(RunBreak(m, today), today, live)
  }

  /** Gap-fill keeps every stored entry, and adds exactly the days from today
      back to, but excluding, the nearest stored day, each with the placeholder. */
  lemma GapFillSpec(m: map<int, real>, placeholder: real, today: int)
    requires exists d :: d in m && d <= today
    ensures var g := GapFilled(m, placeholder, today);
      && (forall d :: d in m ==> d in g && g[d] == m[d])
      && today in g
      && (forall d :: d <= today && (forall e :: d <= e <= today ==> e !in m) ==> Lookup(g, d) == Some(placeholder))
      && (forall d :: d in g && d !in m ==> d <= today && g[d] == placeholder && forall e :: d <= e <= today ==> e !in m)
  {
    var g := GapFilled(m, placeholder, today);
    if today !in m {
      var b := RunBreak(m, today);
      assert b in m;
      forall d | d in m ensures d in g && g[d] == m[d] {
        assert b < d <= today ==> Lookup(m, d) == Lookup(m, today);
      }
      forall d | d <= today && (forall e :: d <= e <= today ==> e !in m)
        ensures Lookup(g, d) == Some(placeholder)
      {
        assert d <= b ==> b !in m;
      }
      forall d | d in g && d !in m
        ensures d <= today && g[d] == placeholder && forall e :: d <= e <= today ==> e !in m
      {
        assert b < d <= today;
        forall e | d <= e <= today ensures e !in m {
          assert Lookup(m, e) == Lookup(m, today);
        }
      }
    }
  }

  /** Running gap-fill again changes nothing: today has a rate now, so the
      walk stops at once. */
  lemma GapFillIdempotent(m: map<int, real>, p: real, q: real, today: int)
    requires exists d :: d in m && d <= today
    ensures var g := GapFilled(m, p, today);
      (exists d :: d in g && d <= today) && GapFilled(g, q, today) == g
  {
    GapFillSpec(m, p, today);
  }

  /** The override replaces exactly the maximal run of consecutive days ending
      today whose lookup equals today's; every other day is unchanged. */
  lemma OverrideSpec(m: map<int, real>, live: real, today: int)
    requires exists d :: d in m && d <= today
    ensures var o := Overridden(m, live, today);
      forall d :: Lookup(o, d) ==
        if d <= today && (forall e :: d <= e <= today ==> Lookup(m, e) == Lookup(m, today))
        then Some(live) else Lookup(m, d)
  {
    var o := Overridden(m, live, today);
    var b := RunBreak(m, today);
    forall d ensures Lookup(o, d) ==
        if d <= today && (forall e :: d <= e <= today ==> Lookup(m, e) == Lookup(m, today))
        then Some(live) else Lookup(m, d)
    {
      if d <= b {
        assert !(Lookup(m, b) == Lookup(m, today));
      }
    }
  }

  /** After gap-fill the last stored rate is today's value, so a live rate
      rewrites the last genuine stored day too: three stored days at 150 and
      today two days later all become 160. */
  lemma LiveRateRewritesStoredRun(m: map<int, real>)
    requires m == map[1 := 150.0, 2 := 150.0, 3 := 150.0]
    ensures exists d :: d in m && d <= 5
    ensures GapFilled(m, 150.0, 5) == map[1 := 150.0, 2 := 150.0, 3 := 150.0, 4 := 150.0, 5 := 150.0]
    ensures exists d :: d in GapFilled(m, 150.0, 5) && d <= 5
    ensures Overridden(GapFilled(m, 150.0, 5), 160.0, 5)
      == map[1 := 160.0, 2 := 160.0, 3 := 160.0, 4 := 160.0, 5 := 160.0]
  {
    assert 1 in m && 3 in m;
    assert RunsTo(m, 5, 3);
    RunBreakUnique(m, 5, 3);
    var g := GapFilled(m, 150.0, 5);
    assert g == map[1 := 150.0, 2 := 150.0, 3 := 150.0, 4 := 150.0, 5 := 150.0];
    assert RunsTo(g, 5, 0) by {
      assert Lookup(g, 0) == None;
      forall e | 0 < e <= 5 ensures Lookup(g, e) == Lookup(g, 5) {
        assert e in g;
      }
    }
    RunBreakUnique(g, 5, 0);
  }

  // ---------------------------------------------------------------------
  // The collection object
  // ---------------------------------------------------------------------

  class Collection {
    var holdings: seq<Holding>
    var prices: map<string, seq<Point>>
    var dividends: map<string, seq<Point>>
    var exrates: map<int, real>
    var isUSD: map<string, bool>

    /** The collection-building effect: group the stored rows, index the rate
        rows by day, then fill the trailing gap with the last stored row's
        rate, walking back from `today` (the current UTC day). */
    constructor Load(hs: seq<Holding>, priceRows: seq<Row>, dividendRows: seq<Row>,
                     rateRows: seq<RateRow>, today: int)
      requires |rateRows| > 0
      requires exists i :: 0 <= i < |rateRows| && rateRows[i].day <= today
      ensures holdings == hs
      ensures isUSD.Keys == HoldingCodes(hs)
      ensures forall c :: c in isUSD ==> (isUSD[c] <==> IsUsdCode(c))
      ensures prices.Keys == RowCodes(priceRows)
      ensures forall c :: c in prices ==> prices[c] == OfCode(priceRows, c)
      ensures dividends.Keys == RowCodes(dividendRows)
      ensures forall c :: c in dividends ==> dividends[c] == OfCode(dividendRows, c)
      ensures exists d :: d in RateTable(rateRows) && d <= today
      ensures exrates == GapFilled(RateTable(rateRows), rateRows[|rateRows| - 1].price, today)
    {
      holdings := hs;
      var flags := FlagUsd(hs);
      isUSD := flags;
      var ps := GroupByCode(priceRows);
      prices := ps;
      var ds := GroupByCode(dividendRows);
      dividends := ds;
      var table := IndexRates(rateRows);
      exrates := table;
      new;
      RateTableKeys(rateRows);
      var i :| 0 <= i < |rateRows| && rateRows[i].day <= today;
      assert rateRows[i].day in exrates;
      FillRateGap(rateRows[|rateRows| - 1].price, today);
    }

    /** The gap-fill walk: `while (true) { if (day in exrates) break;
        exrates[day] = placeholder; day -= one day }`. */
    method FillRateGap(placeholder: real, today: int)
      requires exists d :: d in exrates && d <= today
      modifies this`exrates
      ensures exrates == GapFilled(old(exrates), placeholder, today)
    {
      ghost var m0 := exrates;
      ghost var b := if today in m0 then today else RunBreak(m0, today);
      forall d | b < d <= today ensures d !in m0 {
        assert Lookup(m0, d) == Lookup(m0, today);
      }
      var day := today;
      while day !in exrates
        invariant b <= day <= today
        invariant b in m0
        invariant forall d :: b < d <= today ==> d !in m0
        invariant exrates == m0 + Run(day, today, placeholder)
        decreases day - b
      {
        exrates := exrates[day := placeholder];
        day := day - 1;
      }
      assert day == b;
      if today in m0 {
        assert exrates == m0;
      }
    }
  }

  /** The override effect: nothing when the live rate is still 0 or the
      collection is not loaded; otherwise walk back from today, take today's
      value (possibly undefined) as the one to replace, and overwrite days
      while they hold that value. */
  method OverrideLiveRate(sc: Collection?, jpyRate: real, today: int)
    requires sc != null && jpyRate != 0.0 ==> exists d :: d in sc.exrates && d <= today
    modifies sc
    ensures sc != null && jpyRate != 0.0 ==> sc.exrates == Overridden(old(sc.exrates), jpyRate, today)
    ensures sc != null && jpyRate == 0.0 ==> sc.exrates == old(sc.exrates)
    ensures sc != null ==>
      (sc.holdings == old(sc.holdings) && sc.prices == old(sc.prices) &&
       sc.dividends == old(sc.dividends) && sc.isUSD == old(sc.isUSD))
  {
    if jpyRate == 0.0 || sc == null {
      return;
    }
    ghost var m0 := sc.exrates;
    ghost var b := RunBreak(m0, today);
    var tmpSet := false;
    var tmp: Option<real> := None;
    var day := today;
    while true
      invariant b <= day <= today
      invariant !tmpSet ==> day == today && sc.exrates == m0
      invariant tmpSet ==> tmp == Lookup(m0, today) && day < today
      invariant forall e :: day < e <= today ==> Lookup(m0, e) == Lookup(m0, today)
      invariant sc.exrates == m0 + Run(day, today, jpyRate)
      invariant sc.holdings == old(sc.holdings) && sc.prices == old(sc.prices)
      invariant sc.dividends == old(sc.dividends) && sc.isUSD == old(sc.isUSD)
      decreases day - b
    {
      if !tmpSet {
        tmp := Lookup(sc.exrates, day);
        tmpSet := true;
      }
      assert Lookup(sc.exrates, day) == Lookup(m0, day);
      if Lookup(sc.exrates, day) == tmp {
        sc.exrates := sc.exrates[day := jpyRate];
      } else {
        break;
      }
      day := day - 1;
    }
    assert RunsTo(m0, today, day);
    RunBreakUnique(m0, today, day);
  }
}
