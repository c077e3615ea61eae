# Money page series engine and pace formatter, in Dafny

This project models the reconstruction and valuation engine behind the money
page of a personal dashboard, together with the pace formatter of its health page.

**Inputs.** The engine takes sparse, dated records:
- account transactions and opening balances;
- stock holdings, prices and dividends;
- a table of JPY-per-USD rates keyed by UTC day.

**Outputs.** It produces series aligned with a sampling grid, ready for charting.

The model is split into six modules, one per file:

- `Series` (`series.dfy`): shared vocabulary.
  - Absent values (`Option`, standing for NaN or `undefined`).
  - Dated points.
  - Truncation toward zero.
  - The evenly spaced grid.
  - The forward price cursor that every valuation pass uses.
- `StockCollection` (`stock_collection.dfy`): the stock collection and its rate table.
  - The `date2str` day key and `get_jpy_rate`.
  - The USD flag.
  - Grouping of price and dividend rows per code.
  - The day-keyed rate table.
  - The class `Collection`. Its fields are updated in place by:
    - the trailing gap-fill walk;
    - the live-rate override walk.
- `MoneyCollection` (`money_collection.dfy`): one table per account.
  - Transactions are kept in stored order.
  - The balance is carried forward from the opening balance under the "truthy balance" guard.
  - `date_from` is the earliest date seen.
- `AssetChart` (`asset_chart.dfy`): the asset chart.
  - The 100-point grid.
  - The backward balance reconstruction `get_money_series`.
  - The market-value pass `get_stockval_series`.
  - Row building with the "zero before a present value" rule.
- `StockChart` (`stock_chart.dfy`): the stock chart.
  - The clamped profit grid.
  - The profit pass `get_stock_profits`.
  - The `+`/`-` row split.
  - The in-place sign-crossing pass over an `array` of rows.
  - The half-year boundaries.
  - The dividend pass `get_stock_dividends`.
- `PageHealth` (`page_health.dfy`): the `pace` formatter, which turns seconds into text of the form `m:ss`.

**Modelling conventions.**
- Instants of stored records are `int` milliseconds. Grid points are `real`, because `xmin + i * dx` is fractional.
- Amounts, prices and rates are `real`.
- The UTC day of an instant is `ms / 86400000`.
- `Date.now()`, the current UTC day and the calendar used by `setMonth` are all parameters:
  - `now` and `today` are integers;
  - `monthStart` maps a month count `m` to the instant the local calendar reaches when `setMonth` steps `new Date("2019-07-01")` (UTC midnight) forward to month `m`. That instant keeps the epoch's local wall-clock time, so west of UTC it falls on the last day of the month before. The model requires the function to be strictly increasing and to map July 2019 (the walk's start) to 1561939200000, the value of `new Date("2019-07-01").getTime()`.
- Each loop in the source is a Dafny `method` with loop invariants. The method is proved equal to a recursive or comprehension-based specification function. The properties the source promises are then proved about those functions as lemmas.

**Where the code and a plain description differ, the model follows the code.**
- The price cursor picks the first price dated at or after the grid point, or the last price when all are earlier. It does not pick the latest price at or before the point (`Series.PriceIndex`).
- Market value is absent before a holding's start and wherever the day's rate is undefined. Its end is never consulted (`AssetChart.StockValuesIgnoreEnd`).
- Every dividend value uses today's rate, not the rate of its boundary (`StockChart.StockDividends`).
- Gap-fill writes the rate of the last stored rate row. The rate table is keyed by date, so that row is the latest stored day. It differs from the nearest stored day at or before today only when some row is dated after today (`StockCollection.Collection.Load`).
- The live override replaces every day of the run ending today that holds today's value. This includes genuine stored days whose rate equals that value (`StockCollection.LiveRateRewritesStoredRun`).
- The last point of a balance series is the anchor whatever transactions are dated after it. An empty grid yields `[anchor]` (`AssetChart.BalanceSeries`).

## Model

| member | source | states |
|---|---|---|
| Series.Trunc | src/page_money/StockCollection.tsx:23 | the time value of a fractional instant is its truncation toward zero: within 1 below a non-negative input, within 1 above a negative one |
| Series.EvenGrid | src/page_money/AssetChart.tsx:28-29 | the grid has n points, starts at xmin, ends at xmax, has constant spacing (xmax-xmin)/(n-1), and is strictly ascending when xmin < xmax |
| Series.PriceIndex | src/page_money/AssetChart.tsx:161-163 | the cursor stops at an index in range; every earlier price is dated before x; it is the last index or dated at or after x |
| Series.PriceIndexUnique | src/page_money/AssetChart.tsx:161-163 | any index satisfying the cursor's stopping condition is the one PriceIndex picks |
| Series.Advance | src/page_money/StockChart.tsx:262-264 | the cursor loop resumed from a position whose predecessors are all earlier stops at PriceIndex |
| Series.PriceIndexMonotone | src/page_money/AssetChart.tsx:161-163 | the cursor never moves backward when the sampling instant advances |
| Series.PriceIndexSplits | src/page_money/AssetChart.tsx:161-163 | on an ascending history every price after the selected one is dated at or after x |
| StockCollection.DayKey | src/page_money/StockCollection.tsx:18-20 | the day key of an instant names the UTC day that contains it |
| StockCollection.IsUsdCode | src/page_money/StockCollection.tsx:65 | definition: a code is priced in dollars unless it ends with ".T" |
| StockCollection.JpyRate | src/page_money/StockCollection.tsx:22-24 | definition: a code flagged USD reads the rate of the instant's UTC day, absent when the table lacks that day; any other code gets 1.0 |
| StockCollection.YenCodeRateIsOne | src/page_money/StockCollection.tsx:22-24 | a code not flagged USD gets rate 1.0 at every instant |
| StockCollection.UsdRateIsDayEntry | src/page_money/StockCollection.tsx:18-24 | for a USD code the rate of an instant is the table entry of its UTC day, or absent |
| StockCollection.FlagUsd | src/page_money/StockCollection.tsx:64-67 | exactly the held codes are flagged, and a code is flagged USD iff it does not end with ".T" |
| StockCollection.GroupByCode | src/page_money/StockCollection.tsx:68-75 | groups exist exactly for the codes some row carries, and each group is the in-order subsequence of that code's rows |
| StockCollection.OfCodeAbsent | src/page_money/StockCollection.tsx:68-75 | a code no row carries has an empty subsequence |
| StockCollection.OfCodePlacement | src/page_money/StockCollection.tsx:68-75 | every row lands in its own code's group, right after the earlier rows of that code |
| StockCollection.OfCodeSource | src/page_money/StockCollection.tsx:68-75 | every point of a group comes from a row of that code with the same date and value |
| StockCollection.OfCodeAscending | src/page_money/StockCollection.tsx:68-75 | rows in date order give date-ordered groups |
| StockCollection.IndexRates | src/page_money/StockCollection.tsx:76-79 | the table is RateTable of the rows |
| StockCollection.RateTableKeys | src/page_money/StockCollection.tsx:76-79 | the table's days are exactly the stored days |
| StockCollection.RateTableLastWins | src/page_money/StockCollection.tsx:76-79 | a stored day holds the rate of the last row of that day |
| StockCollection.RunBreakUnique | src/page_money/StockCollection.tsx:84-89 | the day where a backward walk from today first meets a value different from today's is unique |
| StockCollection.Run | src/page_money/StockCollection.tsx:84-89 | the filled days are exactly the days after lo up to hi, each holding the given value |
| StockCollection.GapFillSpec | src/page_money/StockCollection.tsx:80-89 | gap-fill keeps every stored entry and puts today in the table; it fills exactly the days from today back to, but excluding, the nearest stored day, each with the placeholder |
| StockCollection.GapFillIdempotent | src/page_money/StockCollection.tsx:84-86 | a second gap-fill, with any placeholder, changes nothing |
| StockCollection.OverrideSpec | src/page_money/StockCollection.tsx:97-109 | after the override a day holds the live rate iff it lies in the run of consecutive days ending today whose value equals today's; every other day is unchanged |
| StockCollection.LiveRateRewritesStoredRun | src/page_money/StockCollection.tsx:80-109 | with three stored days at 150 and today two days later, gap-fill then a live rate of 160 rewrites all five days, the genuine ones included |
| StockCollection.Collection.Load | src/page_money/StockCollection.tsx:63-89 | after loading: the holdings are as given; the USD flags, price groups and dividend groups are as above; the rate table is the day-indexed rows, gap-filled with the last row's rate |
| StockCollection.Collection.FillRateGap | src/page_money/StockCollection.tsx:80-89 | the walk leaves the table as GapFilled of the old table |
| StockCollection.OverrideLiveRate | src/page_money/StockCollection.tsx:94-110 | nothing changes when the live rate is 0 or there is no collection; otherwise the table becomes Overridden of the old table; the other fields are untouched |
| MoneyCollection.OpeningBalance | src/page_money/MoneyCollection.tsx:34-37 | definition: the amount of the last opening-balance row of the account, 0.0 when it has none |
| MoneyCollection.Carried | src/page_money/MoneyCollection.tsx:40-46 | definition: the account's transactions applied in order, each adding its amount only while the running balance is nonzero |
| MoneyCollection.EarliestIsMin | src/page_money/MoneyCollection.tsx:32-42 | `date_from` is at most `now` and every transaction date, and equals one of them |
| MoneyCollection.TotalCons | src/page_money/MoneyCollection.tsx:44-46 | a sum of amounts can be taken from the front |
| MoneyCollection.OpenTables | src/page_money/MoneyCollection.tsx:34-37 | the first loop creates exactly one empty table per opening-balance target, with the last row's amount as balance |
| MoneyCollection.PostOne | src/page_money/MoneyCollection.tsx:40-46 | one transaction creates its table if needed, is appended to it, and moves a nonzero balance by its amount; the other tables are untouched |
| MoneyCollection.PostTransactions | src/page_money/MoneyCollection.tsx:39-47 | the tables are exactly the opening ones plus the targets of some transaction; each holds its transactions in order and the guarded carried balance; `date_from` is the running minimum |
| MoneyCollection.PostStep | src/page_money/MoneyCollection.tsx:39-47 | posting one more transaction preserves the "posted so far" invariant |
| MoneyCollection.PostedKeys | src/page_money/MoneyCollection.tsx:40 | after one more transaction the accounts with a table are the opening ones and those named by a transaction so far |
| MoneyCollection.PostedTables | src/page_money/MoneyCollection.tsx:40-46 | after one more transaction every table is its account's table over the transactions so far |
| MoneyCollection.PostedOwnTable | src/page_money/MoneyCollection.tsx:40-46 | the posted account's table gains the transaction, and its balance moves by the amount unless it is 0 |
| MoneyCollection.PostedOwn | src/page_money/MoneyCollection.tsx:40-46 | the table the loop body leaves for the transaction's own account, created when missing, is that account's table over the transactions so far |
| MoneyCollection.Build | src/page_money/MoneyCollection.tsx:32-47 | every target named by an opening balance or a transaction gets exactly one table, holding that target's transactions in order and the carried balance; `date_from` is the minimum of `now` and all dates |
| MoneyCollection.OfTargetNonEmpty | src/page_money/MoneyCollection.tsx:39-41 | an account has transactions exactly when some transaction names it |
| MoneyCollection.OpeningBalanceAbsent | src/page_money/MoneyCollection.tsx:40 | an account without an opening-balance row starts at 0.0 |
| MoneyCollection.OpeningBalanceOfRow | src/page_money/MoneyCollection.tsx:34-37 | with one row per target, the balance after the first loop is that row's amount |
| MoneyCollection.ZeroBalanceSticks | src/page_money/MoneyCollection.tsx:44-46 | once the running balance is exactly 0 it stays 0 |
| MoneyCollection.NoOpeningBalanceStaysZero | src/page_money/MoneyCollection.tsx:40-46 | an account without an opening balance ends at 0 whatever its transactions |
| MoneyCollection.CarriedIsOpeningPlusTotal | src/page_money/MoneyCollection.tsx:44-46 | when no balance a transaction finds is exactly 0, the final balance is the opening balance plus the sum of the amounts, even when that final balance is 0 |
| AssetChart.AssetGrid | src/page_money/AssetChart.tsx:25-29 | 100 points from 2020-01-01 to now, with constant spacing, strictly ascending when now is later |
| AssetChart.BalanceSeries | src/page_money/AssetChart.tsx:121-147 | definition: at each grid point but the last, the anchor minus the amounts dated at or after the point; the anchor at the last point; `[anchor]` for an empty grid |
| AssetChart.SinceSplit | src/page_money/AssetChart.tsx:136-142 | on a history split by x, the transactions dated at or after x are the suffix |
| AssetChart.AccountSeries | src/page_money/AssetChart.tsx:124-147 | the backward two-cursor pass with its final reverse yields BalanceSeries: at each grid point but the last, the anchor minus the amounts dated at or after it; the anchor at the last point; `[anchor]` for an empty grid |
| AssetChart.PushLater | src/page_money/AssetChart.tsx:135-140 | the inner loop pushes the balance at every grid point later than the current amount's date, keeping each pushed value the anchor less the amounts dated at or after its point |
| AssetChart.PushRemaining | src/page_money/AssetChart.tsx:143-145 | once the amounts are used up, the grid points still ahead of the cursor receive the balance, which is then the anchor less every amount |
| AssetChart.ReversedIsBalanceSeries | src/page_money/AssetChart.tsx:147 | reading the pushed values back to front gives the closed form |
| AssetChart.MoneySeries | src/page_money/AssetChart.tsx:121-151 | exactly the accounts with a nonzero balance get a series, each equal to BalanceSeries of its balance and transactions |
| AssetChart.BalanceSeriesExample | src/page_money/AssetChart.tsx:129-146 | anchor 1000, transactions (10, +200) and (20, -50), grid [5, 15, 25] give [850, 1050, 1000] |
| AssetChart.BalanceSeriesShape | src/page_money/AssetChart.tsx:128-147 | a non-empty grid gives one value per point, the last being the anchor |
| AssetChart.TotalOfZeros | src/page_money/AssetChart.tsx:142 | zero amounts add up to 0 |
| AssetChart.FlatWithoutMovement | src/page_money/AssetChart.tsx:131-146 | with no transactions, or only zero amounts, the series is constant at the anchor |
| AssetChart.BeforeAllTransactions | src/page_money/AssetChart.tsx:131-146 | an inner point at or before the earliest transaction shows the anchor minus every amount |
| AssetChart.BalanceAtSplit | src/page_money/AssetChart.tsx:129-146 | at an inner grid point that splits the history at `m` by date, the series shows the anchor minus the amounts from `m` on |
| AssetChart.ReconstructsOpeningBalance | src/page_money/AssetChart.tsx:125-146 | reconstructing from the carried balance gives the opening balance back before the first transaction, provided no balance a transaction found was 0 |
| AssetChart.StockValAt | src/page_money/AssetChart.tsx:164-165 | definition: before the holding's start, or without a rate, no value; otherwise price times quantity times rate |
| AssetChart.HoldingValues | src/page_money/AssetChart.tsx:155-167 | the per-holding loop with its forward cursor yields StockValues |
| AssetChart.StockValSeries | src/page_money/AssetChart.tsx:153-170 | one series per holding, in holding order, each StockValues of the holding's prices |
| AssetChart.StockValuesSpec | src/page_money/AssetChart.tsx:159-165 | a value is absent before the start or without a rate; otherwise it is price times quantity times rate, the price being the first one dated at or after the point, or the last |
| AssetChart.StockValuesIgnoreEnd | src/page_money/AssetChart.tsx:164-165 | changing a holding's end date changes no market value |
| AssetChart.BalanceRow | src/page_money/AssetChart.tsx:35-36 | definition: "date" mapped to the point, plus every account's balance at point `i` |
| AssetChart.StockCell | src/page_money/AssetChart.tsx:38-45 | definition: a present value, else 0 when the next point is present, else no cell |
| AssetChart.WithStockCells | src/page_money/AssetChart.tsx:37-46 | definition: the holdings' cells written over the row in holding order, a later holding of the same name overwriting an earlier one |
| AssetChart.AssetRow | src/page_money/AssetChart.tsx:34-47 | the row is "date", then each account's balance, then each holding's cell written in holding order |
| AssetChart.BalanceCells | src/page_money/AssetChart.tsx:35-36 | visiting the accounts in any order, the row ends as "date" plus every account's balance at the point |
| AssetChart.StockCellsOfDistinctNames | src/page_money/AssetChart.tsx:37-47 | with distinct holding names not used by accounts, a holding's key is in the row iff its cell is present, and the key holds the cell |
| AssetChart.StockCellsOmitName | src/page_money/AssetChart.tsx:37-47 | a name no holding carries is never added to the row |
| AssetChart.RowRisesFromZero | src/page_money/AssetChart.tsx:37-46 | in a row with distinct holding names, a holding present at the point shows its value; one absent there shows 0 exactly when it is present at the next point, and is omitted otherwise |
| StockChart.ProfitGrid | src/page_money/StockChart.tsx:68-74 | a non-empty grid has 2 to 200 points, starts at max(now - range, 2019-08-01), ends at now, and is strictly ascending |
| StockChart.ProfitGridCases | src/page_money/StockChart.tsx:68-74 | by the distance d from the start max(now - range, 2019-08-01) to now: d < 0, and a fractional number of days under 200, give InvalidLength; d = 0 gives the empty grid; one day gives the single NaN; otherwise the grid is the even grid `xmin + i * dx` from the start to now with one point per day, capped at 200 |
| StockChart.DaysOf | src/page_money/StockChart.tsx:72 | the day count `(xmax - xmin) / 86400000` is negative exactly when the distance is, below 200 exactly when the distance is under 200 days, and a whole number exactly when the distance is a multiple of a day, and then it is that multiple |
| StockChart.ProfitGridOfRange | src/page_money/StockChart.tsx:70-74 | a range of at least 2 days reaching no further back than the limit gives min(days, 200) points starting at now - range |
| StockChart.ProfitGridAtLimit | src/page_money/StockChart.tsx:68-72 | a range reaching past 2019-08-01 is clamped to start there, and gives 200 points when at least 200 days remain |
| StockChart.BasePrice | src/page_money/StockChart.tsx:266-268 | definition: the acquisition price, scaled by acquisition rate over current rate when the exchange gain is considered |
| StockChart.Gain | src/page_money/StockChart.tsx:271 | definition: quantity times rate times the price less the base price |
| StockChart.ProfitAt | src/page_money/StockChart.tsx:265-272 | definition: the gain while start <= x <= end and the rate is defined (and nonzero when the exchange gain is considered), no value otherwise |
| StockChart.StockProfits | src/page_money/StockChart.tsx:256-276 | definition: at each grid point, ProfitAt with the cursor's price and that instant's rate |
| StockChart.GainWithFx | src/page_money/StockChart.tsx:265-271 | with FX gain on, the profit is quantity times (rate times price minus acquisition price times acquisition rate) |
| StockChart.GainZeroAtAcquisition | src/page_money/StockChart.tsx:266-271 | at the acquisition price, and with FX gain on also at the acquisition rate, the profit is 0 |
| StockChart.StockProfitsSpec | src/page_money/StockChart.tsx:260-272 | a profit is present iff start <= x <= end and the rate is defined (nonzero with FX gain); it is then the gain at the price the forward cursor selects |
| StockChart.HoldingProfits | src/page_money/StockChart.tsx:256-275 | the per-holding loop with its forward cursor yields StockProfits |
| StockChart.AllProfits | src/page_money/StockChart.tsx:250-278 | one profit series per holding, in holding order |
| StockChart.HoldingNames | src/page_money/StockChart.tsx:84 | definition: the label of each holding, in order |
| StockChart.ProfitKey | src/page_money/StockChart.tsx:85 | definition: the holding's label followed by "+" for a profit above 0 and "-" otherwise |
| StockChart.ProfitCells | src/page_money/StockChart.tsx:81-87 | definition: each present profit written under its ProfitKey in holding order; absent profits are skipped |
| StockChart.ExrateCell | src/page_money/StockChart.tsx:88 | definition: the stored rate of the point's UTC day, absent when the table lacks it |
| StockChart.ProfitRow | src/page_money/StockChart.tsx:78-89 | definition: "date", then ProfitCells, then "exrate" when ExrateCell is present |
| StockChart.BuildProfitRow | src/page_money/StockChart.tsx:78-89 | the row loop yields ProfitRow: "date", each present profit under its signed key, then "exrate" when that day has a rate |
| StockChart.KeySplit | src/page_money/StockChart.tsx:85 | two keys built as name plus one sign character are equal only when name and sign are |
| StockChart.ProfitCellsOmit | src/page_money/StockChart.tsx:81-87 | a key whose name no holding carries is never added |
| StockChart.ProfitCellsOf | src/page_money/StockChart.tsx:81-87 | with distinct names, name+"+" is present iff the profit is present and > 0; name+"-" iff present and <= 0; the value is stored with its sign |
| StockChart.ProfitRowKeys | src/page_money/StockChart.tsx:78-89 | the same for a whole row, "date" and "exrate" included |
| StockChart.StepRows | src/page_money/StockChart.tsx:97-104 | one guarded write for one key at pair `i`: a nonzero value on one side only zeroes the other side; the row count is kept |
| StockChart.CrossedAll | src/page_money/StockChart.tsx:93-106 | the pass of each holding's "+" and then "-" key over every pair, in holding order; the row count is kept |
| StockChart.CrossedUpTo | src/page_money/StockChart.tsx:96-105 | marking the first pairs keeps the number of rows |
| StockChart.StepAdvance | src/page_money/StockChart.tsx:96-105 | one iteration of the inner loop, for one key, extends the marked prefix by one pair |
| StockChart.StepCommutes | src/page_money/StockChart.tsx:96-105 | the steps for the "+" key and for the "-" key do not interfere |
| StockChart.PairStep | src/page_money/StockChart.tsx:96-105 | the four conditional writes of one iteration extend the marked prefix of both keys by one pair |
| StockChart.InsertCrossingZeros | src/page_money/StockChart.tsx:93-106 | the nested loop leaves the rows as CrossedAll of the old rows |
| StockChart.CrossStep | src/page_money/StockChart.tsx:97-104 | one iteration reads all four flags of the pair first and leaves the rows as one "+" step followed by one "-" step |
| StockChart.ZeroPaddedTrans | src/page_money/StockChart.tsx:96-105 | keeping old values and adding zero keys composes |
| StockChart.CrossedAllPads | src/page_money/StockChart.tsx:96-105 | the pass alters no existing value: every old key keeps its value if nonzero, and every key it adds holds 0 |
| StockChart.CrossedCloses | src/page_money/StockChart.tsx:96-105 | after the pass over one key, a nonzero value on either side of an adjacent pair has the key defined on the other side |
| StockChart.PaddedStaysClosed | src/page_money/StockChart.tsx:96-105 | later passes keep that closure |
| StockChart.CrossedAllCloses | src/page_money/StockChart.tsx:96-105 | after the whole pass, for each holding's "+" and "-" key and every adjacent pair of rows, a nonzero value on one side has the key defined on the other |
| StockChart.PairKeepsClosed | src/page_money/StockChart.tsx:93-106 | a later holding's pass keeps a pair that was closed for a key closed |
| StockChart.CrossedPairCloses | src/page_money/StockChart.tsx:96-105 | a holding's own pass closes both its "+" and its "-" key at every adjacent pair |
| StockChart.ProfitTable | src/page_money/StockChart.tsx:250-278 | one profit series per holding, each as long as the grid |
| StockChart.ProfitRows | src/page_money/StockChart.tsx:78-90 | one row per grid point |
| StockChart.ProfitChartData | src/page_money/StockChart.tsx:77-106 | the chart data is a fresh array: the split rows of the profit table with the sign-crossing zeros inserted |
| StockChart.ProfitRowsArray | src/page_money/StockChart.tsx:78-90 | the mapped grid is a fresh array holding, at each point, that point's ProfitRow |
| StockChart.HalfYearBoundaries | src/page_money/StockChart.tsx:385-392 | boundary i is the start of month July 2019 + 6(i+1); given that month count July 2019 is the instant 1561939200000 (2019-07-01 UTC midnight), the list is empty iff now is at or before that instant; every boundary but the last is before now, the last is at or after now; strictly ascending |
| StockChart.DividendAt | src/page_money/StockChart.tsx:414-422 | definition: no value outside [start, end]; "sum" and "half" scale the running total and the half by quantity and rate; "rate" is Yield on the price, absent at price 0; any other mode gives no value |
| StockChart.Yield | src/page_money/StockChart.tsx:420 | definition: the half over the price, doubled |
| StockChart.DividendValues | src/page_money/StockChart.tsx:403-424 | definition: at each boundary, DividendAt with that boundary's half, running total and cursor price |
| StockChart.DivIndex | src/page_money/StockChart.tsx:406-409 | the dividend cursor stops at the first dividend dated at or after x, or at the end |
| StockChart.DivIndexUnique | src/page_money/StockChart.tsx:406-409 | any index satisfying the stopping condition is the one DivIndex picks |
| StockChart.BucketStart | src/page_money/StockChart.tsx:406-409 | a half starts no later than it ends |
| StockChart.PassDividends | src/page_money/StockChart.tsx:404-409 | the inner loop stops at DivIndex, having added up exactly the dividends it passed |
| StockChart.SumValuesSplit | src/page_money/StockChart.tsx:413 | the sum of a list split in two is the sum of its parts |
| StockChart.RunningSum | src/page_money/StockChart.tsx:413 | the running total after a half is the total before it plus the half |
| StockChart.HoldingDividends | src/page_money/StockChart.tsx:400-424 | the per-holding loop, with dividend cursor, price cursor and running total, yields DividendValues |
| StockChart.DividendStep | src/page_money/StockChart.tsx:404-423 | at one boundary the passed dividends form its half, the running total grows by that half to every dividend dated before the boundary, and the value pushed is the boundary's DividendPoint |
| StockChart.StockDividends | src/page_money/StockChart.tsx:384-429 | the boundaries as above, empty iff now is at or before 2019-07-01 UTC midnight; one series per holding, each its DividendSeries at today's rate: empty for a code with no dividends, otherwise DividendValues |
| StockChart.CumulatedIsHalfTotal | src/page_money/StockChart.tsx:403-418 | the running total at boundary i is the sum of the halves up to i |
| StockChart.DivIndexSplits | src/page_money/StockChart.tsx:406-409 | on ascending dividends, a dividend is passed on the way to x iff it is dated before x |
| StockChart.HalfMembers | src/page_money/StockChart.tsx:403-409 | a dividend is in half i iff it is dated at or after boundary i-1 (any date for the first half) and before boundary i, so each is counted in one half only |
| StockChart.SumValuesNonnegative | src/page_money/StockChart.tsx:413 | non-negative amounts have a non-negative sum |
| StockChart.CumulatedMonotone | src/page_money/StockChart.tsx:413 | with non-negative amounts, the running total never decreases as the instant advances |
| StockChart.ScaledMonotone | src/page_money/StockChart.tsx:416 | with non-negative quantity and rate, scaling preserves order |
| StockChart.SumModeNonDecreasing | src/page_money/StockChart.tsx:413-416 | with non-negative amounts, quantity and rate, the "sum" series is non-decreasing across present points |
| StockChart.SumModePoint | src/page_money/StockChart.tsx:414-422 | a present "sum" value is quantity times the running total times the rate |
| StockChart.DividendPointSpec | src/page_money/StockChart.tsx:414-422 | a value is present only inside [start, end]; "sum" scales the total of the halves, "half" scales the half, "rate" is the doubled yield on the cursor price (absent at price 0); other modes give nothing |
| PageHealth.Pace | src/page_health/PageHealth.tsx:18 | definition of the formatter as written: the minutes, then ":" when the unrounded remainder exceeds 9 and ":0" otherwise, then the rounded remainder; PaceOfWholeSeconds, PaceRoundTrip and the two examples state its behaviour |
| PageHealth.Rem60 | src/page_health/PageHealth.tsx:18 | `sec % 60` truncates: the remainder is in [0, 60) for non-negative seconds and in (-60, 0] for negative ones |
| PageHealth.JsRound | src/page_health/PageHealth.tsx:18 | `Math.round` gives the integer within half below and strictly less than half above, so halves round up |
| PageHealth.NaturalText | src/page_health/PageHealth.tsx:18 | the decimal text of a number is non-empty and all digits |
| PageHealth.Minutes | src/page_health/PageHealth.tsx:18 | the minutes part is (sec - sec mod 60) / 60, a whole number |
| PageHealth.TwoDigits | src/page_health/PageHealth.tsx:18 | a whole remainder below 60 is written with exactly two digits |
| PageHealth.PaceOfWholeSeconds | src/page_health/PageHealth.tsx:18 | whole non-negative seconds show as the minutes, ":" and the seconds as two digits, 00 to 59 |
| PageHealth.ColonAt | src/page_health/PageHealth.tsx:18 | finds the first ':' or reports that there is none |
| PageHealth.ParseNaturalText | src/page_health/PageHealth.tsx:18 | the decimal text reads back to its number |
| PageHealth.ParsePaceOf | src/page_health/PageHealth.tsx:18 | minutes, ':' and two digits read back as minutes times 60 plus the seconds |
| PageHealth.SplitAtColon | src/page_health/PageHealth.tsx:18 | the texts on either side of the colon that joins minutes and seconds are the minutes and the seconds |
| PageHealth.ReadsBack | src/page_health/PageHealth.tsx:18 | for any minutes and any seconds 0 to 59, the minutes text, ':' and the two-digit seconds read back as minutes times 60 plus the seconds |
| PageHealth.PaceRoundTrip | src/page_health/PageHealth.tsx:18 | for whole non-negative seconds, minutes times 60 plus the seconds part is the input: the text reads back to it |
| PageHealth.PaceShowsSixtySeconds | src/page_health/PageHealth.tsx:18 | 359.6 seconds show as "5:60" |
| PageHealth.PaceDropsLeadingZero | src/page_health/PageHealth.tsx:18 | 309.4 seconds show as "5:9" |
| PageHealth.PaceRoundedSpec | src/page_health/PageHealth.tsx:18 | rounded to whole seconds first, any non-negative pace shows two-digit seconds below 60 and reads back to the rounded seconds |

## Left out

- Network and storage I/O are not modelled. This covers `fetchDB` in both collection files, the exchange-rate API fetch and the health page's database sync. The model takes the stored rows and the live rate as parameters instead.
- The React lifecycle is not modelled: hooks, state setters, effect dependencies and async ordering. Each effect body is a method, and the caller provides its inputs.
- The storage schema classes are not modelled. Their primary keys are the reason the model may require transactions, prices and dividends to be ascending by date.
- The chart rendering is not modelled: the recharts components, colour tables, tick and tooltip formatters, and the legend key lists.
- The in-place `holdings.sort` is not modelled. It orders the legend, and it runs after the chart data is built.
- The dividend chart's row building (`src/page_money/StockChart.tsx:289-299`) is not modelled. It is a plain copy of the present values under the holding labels, and it is not one of the modelled passes.
- `convert_sortabledate_to_time` is not modelled. It parses dates from fetched text.
- Clock and calendar are parameters, not models:
  - `Date.now()` is the parameter `now`;
  - the current UTC day is `today`;
  - local-time `setDate` and `setMonth` become consecutive day numbers and a strictly increasing `monthStart` function of a month count;
  - time zones and daylight saving time are not modelled.
- IEEE floating point is replaced by exact `real` arithmetic. Rounding of `dx`, of products and of quotients is not modelled. NaN and `undefined` are both `None`.
- StockChart.DividendAt: with price 0 the yield is `None`. The source would yield an infinite value, or NaN when the half is also 0.
- StockChart.ExrateCell: an undefined exchange rate is modelled as an absent "exrate" key. The source stores the key with the value `undefined`.
- `Number.parseInt` of the range selector is not modelled. The profit grid takes the chosen number of days as an integer.
- StockCollection.Collection.Load: requires at least one stored rate row dated at or before today. The source throws on an empty table, and with no stored day at or before today its gap-fill walk does not finish normally: it steps back until the date becomes invalid and `toISOString` throws RangeError, or until memory runs out.
- AssetChart.StockValSeries, StockChart.AllProfits, StockChart.ProfitTable, StockChart.ProfitChartData, StockChart.StockDividends: each requires every holding's code (for StockDividends, every code with dividends) to have price rows. Holdings and prices come from separate stores, and a price list exists only for a code with at least one price row, so it is never empty when present. For a holding without price rows, the source throws TypeError at `prices[k]` or `prices[n]` on the first grid point. That always happens in the asset pass, whose grid has 100 points. In the profit and dividend passes it happens only when the grid or the boundary list is non-empty. The model does not represent this crash.
- StockCollection.OverrideLiveRate: requires a stored day at or before today. Without one the source's walk does not finish normally: it ends with a RangeError from `toISOString` once the date becomes invalid, or with an out-of-memory crash. After gap-fill, today is always present.
- StockChart.StockDividends: the dividend rate is computed once per holding. The source recomputes the same value for every boundary.
- StockChart.ProfitGrid: the size is computed over the reals. `Array(num_x)` throws for a fractional or negative size; the model reports both cases as `InvalidLength`.

## Findings

| source | as written | input that shows it | evidently intended | confidence | as-written member | corrected member |
|---|---|---|---|---|---|---|
| src/page_health/PageHealth.tsx:18 | the seconds part is rounded after the minutes are split off, so a remainder that rounds up to 60 is shown as 60 | 359.6 seconds show as "5:60" | round the pace to whole seconds first, then split it, which shows "6:00" | not executed | PageHealth.PaceShowsSixtySeconds | PageHealth.PaceRoundedSpec |
| src/page_health/PageHealth.tsx:18 | the ":0" padding is chosen on the unrounded remainder, so a remainder just above 9 that rounds down to 9 loses its leading zero | 309.4 seconds show as "5:9" | pad on the rounded seconds, which shows "5:09" | not executed | PageHealth.PaceDropsLeadingZero | PageHealth.PaceRoundedSpec |
