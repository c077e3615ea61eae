/** The money collection: one table per account ("target") holding that
    account's transactions in stored order and its current balance, which is
    the opening balance carried forward by each transaction amount, plus the
    earliest date seen. */
module MoneyCollection {

  /** A stored transaction; `date` is a time value in milliseconds. */
  datatype Transaction = Transaction(date: int, target: string, amount: real)

  /** A stored opening balance of one account. */
  datatype Balance0 = Balance0(target: string, amount: real)

  datatype MoneyTable = MoneyTable(trans: seq<Transaction>, balance: real)

  datatype Collection = Collection(tables: map<string, MoneyTable>, dateFrom: int)

  function OpeningTargets(bs: seq<Balance0>): set<string> {
    set i | 0 <= i < |bs| :: bs[i].target
  }

  function TransTargets(ts: seq<Transaction>): set<string> {
    set i | 0 <= i < |ts| :: ts[i].target
  }

  /** The transactions of account `t`, in stored order. */
  function OfTarget(ts: seq<Transaction>, t: string): seq<Transaction> {
    if |ts| == 0 then []
    else OfTarget(ts[..|ts| - 1], t) + (if ts[|ts| - 1].target == t then [ts[|ts| - 1]] else [])
  }

  /** The balance the first loop leaves: the last opening-balance row of the
      account, or 0.0 when the account has none. */
  function OpeningBalance(bs: seq<Balance0>, t: string): real {
    if |bs| == 0 then 0.0
    else if bs[|bs| - 1].target == t then bs[|bs| - 1].amount
    else OpeningBalance(bs[..|bs| - 1], t)
  }

  /** The second loop's `if (balance) balance += amount` over one account's
      transactions: a balance that is exactly 0 is never updated. */
  function Carried(b: real, ts: seq<Transaction>): real {
    if |ts| == 0 then b
    else
      var p := Carried(b, ts[..|ts| - 1]);
      if p != 0.0 then p + ts[|ts| - 1].amount else p
  }

  /** Sum of the amounts, accumulated in order. */
  function Total(ts: seq<Transaction>): real {
    if |ts| == 0 then 0.0 else Total(ts[..|ts| - 1]) + ts[|ts| - 1].amount
  }

  /** `Math.min` folded over the transaction dates, starting from `now`. */
  function Earliest(now: int, ts: seq<Transaction>): int {
    if |ts| == 0 then now
    else
      var e := Earliest(now, ts[..|ts| - 1]);
      if e < ts[|ts| - 1].date then e else ts[|ts| - 1].date
  }

  /** `date_from` is the minimum of `now` and all transaction dates. */
  lemma {:induction false} EarliestIsMin(now: int, ts: seq<Transaction>)
    ensures Earliest(now, ts) <= now
    ensures forall i :: 0 <= i < |ts| ==> Earliest(now, ts) <= ts[i].date
    ensures Earliest(now, ts) == now || exists i :: 0 <= i < |ts| && Earliest(now, ts) == ts[i].date
  {
    if |ts| > 0 {
      var init := ts[..|ts| - 1];
      EarliestIsMin(now, init);
      forall i | 0 <= i < |init| ensures init[i] == ts[i] { }
    }
  }

  /** The sum can also be taken from the front. */
  lemma {:induction false} TotalCons(t: Transaction, rest: seq<Transaction>)
    ensures Total([t] + rest) == t.amount + Total(rest)
  {
    if |rest| > 0 {
      var init := rest[..|rest| - 1];
      assert ([t] + rest)[..|rest|] == [t] + init;
      TotalCons(t, init);
    }
  }

  /** The balance a transaction finds when the second loop starts: the
      opening table's balance, or the 0.0 of a table the loop creates. */
  function StartBalance(opening: map<string, MoneyTable>, t: string): real {
    if t in opening then opening[t].balance else 0.0
  }

  /** The first loop: `tables[target] ??= { trans: [], balance: 0.0 };
      tables[target].balance = amount`. */
  method OpenTables(balance0: seq<Balance0>) returns (tables: map<string, MoneyTable>)
    ensures tables.Keys == OpeningTargets(balance0)
    ensures forall t :: t in tables ==> tables[t] == MoneyTable([], OpeningBalance(balance0, t))
  {
    tables := map[];
    for i := 0 to |balance0|
      invariant tables.Keys == OpeningTargets(balance0[..i])
      invariant forall t :: t in tables ==> tables[t] == MoneyTable([], OpeningBalance(balance0[..i], t))
    {
      var b0 := balance0[i];
      assert balance0[..i + 1][..i] == balance0[..i];
      assert OpeningTargets(balance0[..i + 1]) == OpeningTargets(balance0[..i]) + {b0.target} by {
        assert forall j :: 0 <= j < i ==> balance0[..i + 1][j] == balance0[..i][j];
      }
      if b0.target !in tables {
        tables := tables[b0.target := MoneyTable([], 0.0)];
      }
      tables := tables[b0.target := tables[b0.target].(balance := b0.amount)];
    }
    assert balance0[..|balance0|] == balance0;
  }

  /** The table of account `t` after the transactions `ts` are posted. */
  function TableOf(opening: map<string, MoneyTable>, ts: seq<Transaction>, t: string): MoneyTable {
    MoneyTable(OfTarget(ts, t), Carried(StartBalance(opening, t), OfTarget(ts, t)))
  }

  /** `tables` holds exactly the accounts of `opening` and those with at
      least one of the transactions `ts`, each as `TableOf` says. */
  ghost predicate PostedAll(opening: map<string, MoneyTable>, tables: map<string, MoneyTable>, ts: seq<Transaction>) {
    KeysPosted(opening, tables, ts) && TablesPosted(opening, tables, ts)
  }

  ghost predicate KeysPosted(opening: map<string, MoneyTable>, tables: map<string, MoneyTable>, ts: seq<Transaction>) {
    forall t :: t in tables <==> t in opening || OfTarget(ts, t) != []
  }

  ghost predicate TablesPosted(opening: map<string, MoneyTable>, tables: map<string, MoneyTable>, ts: seq<Transaction>) {
    forall t :: t in tables ==> tables[t] == TableOf(opening, ts, t)
  }

  /** The second loop: create the table if needed, push the transaction,
      lower `date_from`, and carry a nonzero balance by the amount. */
  method PostTransactions(opening: map<string, MoneyTable>, transactions: seq<Transaction>, now: int)
    returns (mc: Collection)
    requires forall t :: t in opening ==> opening[t].trans == []
    ensures forall t :: t in mc.tables <==> t in opening || OfTarget(transactions, t) != []
    ensures forall t :: t in mc.tables ==> mc.tables[t] == TableOf(opening, transactions, t)
    ensures mc.dateFrom == Earliest(now, transactions)
  {
    var tables := opening;
    var dateFrom := now;
    for i := 0 to |transactions|
      invariant PostedAll(opening, tables, transactions[..i])
      invariant dateFrom == Earliest(now, transactions[..i])
    {
      var tr := transactions[i];
      EarliestStep(now, transactions, i);
      ghost var before := tables;
      tables := PostOne(tables, tr);
      PostStep(opening, before, tables, transactions, i);
      dateFrom := if dateFrom < tr.date then dateFrom else tr.date;
    }
    assert transactions[..|transactions|] == transactions;
    mc := Collection(tables, dateFrom);
  }

  /** The table `tables[target] ??=` finds: the stored one, or a fresh
      empty table with balance 0. */
  function Existing(tables: map<string, MoneyTable>, c: string): MoneyTable {
    if c in tables then tables[c] else MoneyTable([], 0.0)
  }

  /** `trans.push(x)`, then `if (balance) balance += amount`. */
  function Appended(before: MoneyTable, tr: Transaction): MoneyTable {
    MoneyTable(before.trans + [tr], if before.balance != 0.0 then before.balance + tr.amount else before.balance)
  }

  /** One pass of the second loop's body on the tables: `??=` a fresh table,
      push the transaction, and add its amount when the balance is truthy. */
  method PostOne(tables: map<string, MoneyTable>, tr: Transaction) returns (posted: map<string, MoneyTable>)
    ensures posted.Keys == tables.Keys + {tr.target}
    ensures forall t :: t in tables && t != tr.target ==> posted[t] == tables[t]
    ensures posted[tr.target] == Appended(Existing(tables, tr.target), tr)
  {
    posted := tables;
    if tr.target !in posted {
      posted := posted[tr.target := MoneyTable([], 0.0)];
    }
    var table := posted[tr.target];
    table := table.(trans := table.trans + [tr]);
    if table.balance != 0.0 {
      table := table.(balance := table.balance + tr.amount);
    }
    posted := posted[tr.target := table];
  }

  lemma EarliestStep(now: int, ts: seq<Transaction>, i: nat)
    requires i < |ts|
    ensures var e := Earliest(now, ts[..i]);
      Earliest(now, ts[..i + 1]) == if e < ts[i].date then e else ts[i].date
  {
    assert ts[..i + 1][..i] == ts[..i];
  }

  /** Posting one more transaction changes only its own account's table. */
  lemma PostStep(opening: map<string, MoneyTable>, tables: map<string, MoneyTable>,
                 posted: map<string, MoneyTable>, ts: seq<Transaction>, i: nat)
    requires i < |ts|
    requires PostedAll(opening, tables, ts[..i])
    requires posted.Keys == tables.Keys + {ts[i].target}
    requires forall t :: t in tables && t != ts[i].target ==> posted[t] == tables[t]
    requires posted[ts[i].target] == Appended(Existing(tables, ts[i].target), ts[i])
    ensures PostedAll(opening, posted, ts[..i + 1])
  {
    PostedKeys(opening, tables, posted, ts, i);
    PostedTables(opening, tables, posted, ts, i);
  }

  lemma PostedTables(opening: map<string, MoneyTable>, tables: map<string, MoneyTable>,
                     posted: map<string, MoneyTable>, ts: seq<Transaction>, i: nat)
    requires i < |ts|
    requires PostedAll(opening, tables, ts[..i])
    requires posted.Keys == tables.Keys + {ts[i].target}
    requires forall t :: t in tables && t != ts[i].target ==> posted[t] == tables[t]
    requires posted[ts[i].target] == Appended(Existing(tables, ts[i].target), ts[i])
    ensures TablesPosted(opening, posted, ts[..i + 1])
  {
    var c := ts[i].target;
    PostedOthers(opening, tables, posted, ts, i);
    PostedOwn(opening, tables, posted[c], ts, i);
    forall t | t in posted ensures posted[t] == TableOf(opening, ts[..i + 1], t) {
      if t != c {
        assert t in posted && t != ts[i].target;
      }
    }
  }

  /** The new table of the transaction's own account is its `TableOf`. */
  lemma PostedOwn(opening: map<string, MoneyTable>, tables: map<string, MoneyTable>,
                  own: MoneyTable, ts: seq<Transaction>, i: nat)
    requires i < |ts|
    requires PostedAll(opening, tables, ts[..i])
    requires own == Appended(Existing(tables, ts[i].target), ts[i])
    ensures own == TableOf(opening, ts[..i + 1], ts[i].target)
  {
    var c := ts[i].target;
    var before := Existing(tables, c);
    assert before == TableOf(opening, ts[..i], c) by {
      if c !in tables {
        assert OfTarget(ts[..i], c) == [];
      }
    }
    PostedOwnTable(opening, ts, i);
  }

  lemma PostedKeys(opening: map<string, MoneyTable>, tables: map<string, MoneyTable>,
                   posted: map<string, MoneyTable>, ts: seq<Transaction>, i: nat)
    requires i < |ts|
    requires KeysPosted(opening, tables, ts[..i])
    requires posted.Keys == tables.Keys + {ts[i].target}
    ensures KeysPosted(opening, posted, ts[..i + 1])
  {
    forall t ensures t in posted <==> t in opening || OfTarget(ts[..i + 1], t) != [] {
      OfTargetStep(ts, i, t);
    }
  }

  lemma PostedOthers(opening: map<string, MoneyTable>, tables: map<string, MoneyTable>,
                     posted: map<string, MoneyTable>, ts: seq<Transaction>, i: nat)
    requires i < |ts|
    requires forall t :: t in tables ==> tables[t] == TableOf(opening, ts[..i], t)
    requires posted.Keys == tables.Keys + {ts[i].target}
    requires forall t :: t in tables && t != ts[i].target ==> posted[t] == tables[t]
    ensures forall t :: t in posted && t != ts[i].target ==> posted[t] == TableOf(opening, ts[..i + 1], t)
  {
    forall t | t in posted && t != ts[i].target ensures posted[t] == TableOf(opening, ts[..i + 1], t) {
      OfTargetStep(ts, i, t);
      assert OfTarget(ts[..i + 1], t) == OfTarget(ts[..i], t);
    }
  }

  /** The posted account's table gains the transaction, and its balance moves
      by the amount unless it was 0. */
  lemma PostedOwnTable(opening: map<string, MoneyTable>, ts: seq<Transaction>, i: nat)
    requires i < |ts|
    ensures TableOf(opening, ts[..i + 1], ts[i].target) == Appended(TableOf(opening, ts[..i], ts[i].target), ts[i])
  {
    var c := ts[i].target;
    OfTargetStep(ts, i, c);
    var own := OfTarget(ts[..i + 1], c);
    assert own[..|own| - 1] == OfTarget(ts[..i], c);
  }

  /** The collection effect, `now` being `Date.now()`: every account named by
      an opening balance or a transaction gets one table. */
  method Build(balance0: seq<Balance0>, transactions: seq<Transaction>, now: int) returns (mc: Collection)
    ensures mc.tables.Keys == OpeningTargets(balance0) + TransTargets(transactions)
    ensures forall t :: t in mc.tables ==>
      mc.tables[t].trans == OfTarget(transactions, t) &&
      mc.tables[t].balance == Carried(OpeningBalance(balance0, t), OfTarget(transactions, t))
    ensures mc.dateFrom <= now
    ensures forall i :: 0 <= i < |transactions| ==> mc.dateFrom <= transactions[i].date
    ensures mc.dateFrom == now || exists i :: 0 <= i < |transactions| && mc.dateFrom == transactions[i].date
  {
    var opening := OpenTables(balance0);
    mc := PostTransactions(opening, transactions, now);
    EarliestIsMin(now, transactions);
    forall t ensures OfTarget(transactions, t) != [] <==> t in TransTargets(transactions) {
      OfTargetNonEmpty(transactions, t);
    }
    forall t | t in mc.tables ensures StartBalance(opening, t) == OpeningBalance(balance0, t) {
      if t !in opening {
        OpeningBalanceAbsent(balance0, t);
      }
    }
  }

  lemma OfTargetStep(ts: seq<Transaction>, i: nat, t: string)
    requires i < |ts|
    ensures OfTarget(ts[..i + 1], t) == OfTarget(ts[..i], t) + (if ts[i].target == t then [ts[i]] else [])
  {
    assert ts[..i + 1][..i] == ts[..i];
  }

  /** An account has transactions exactly when some transaction names it. */
  lemma {:induction false} OfTargetNonEmpty(ts: seq<Transaction>, t: string)
    ensures OfTarget(ts, t) != [] <==> t in TransTargets(ts)
  {
    if |ts| > 0 {
      var init := ts[..|ts| - 1];
      OfTargetNonEmpty(init, t);
      assert TransTargets(ts) == TransTargets(init) + {ts[|ts| - 1].target} by {
        forall j | 0 <= j < |init| ensures init[j] == ts[j] { }
      }
    }
  }

  /** An account with no opening-balance row starts at 0.0. */
  lemma {:induction false} OpeningBalanceAbsent(bs: seq<Balance0>, t: string)
    requires t !in OpeningTargets(bs)
    ensures OpeningBalance(bs, t) == 0.0
  {
    if |bs| > 0 {
      var init := bs[..|bs| - 1];
      assert OpeningTargets(init) <= OpeningTargets(bs) by {
        forall j | 0 <= j < |init| ensures init[j] == bs[j] { }
      }
      OpeningBalanceAbsent(init, t);
    }
  }

  /** With the account's row unique (the stored key is the target), the
      opening balance is that row's amount. */
  lemma {:induction false} OpeningBalanceOfRow(bs: seq<Balance0>, i: nat)
    requires i < |bs|
    requires forall j :: 0 <= j < |bs| && j != i ==> bs[j].target != bs[i].target
    ensures OpeningBalance(bs, bs[i].target) == bs[i].amount
  {
    if i < |bs| - 1 {
      var init := bs[..|bs| - 1];
      forall j | 0 <= j < |init| && j != i ensures init[j].target != init[i].target {
        assert init[j] == bs[j];
      }
      OpeningBalanceOfRow(init, i);
    }
  }

  /** Once a balance reaches exactly 0 it stays 0; in particular an account
      without an opening balance stays at 0 whatever its transactions. */
  lemma {:induction false} ZeroBalanceSticks(b: real, ts: seq<Transaction>, k: nat)
    requires k <= |ts|
    requires Carried(b, ts[..k]) == 0.0
    ensures Carried(b, ts) == 0.0
    decreases |ts| - k
  {
    if k < |ts| {
      assert ts[..k + 1][..k] == ts[..k];
      ZeroBalanceSticks(b, ts, k + 1);
    } else {
      assert ts[..k] == ts;
    }
  }

  lemma NoOpeningBalanceStaysZero(bs: seq<Balance0>, ts: seq<Transaction>, t: string)
    requires t !in OpeningTargets(bs)
    ensures Carried(OpeningBalance(bs, t), OfTarget(ts, t)) == 0.0
  {
    OpeningBalanceAbsent(bs, t);
    var own := OfTarget(ts, t);
    assert own[..0] == [];
    ZeroBalanceSticks(0.0, own, 0);
  }

  /** When no running balance a transaction finds is exactly 0, the final
      balance is the opening balance plus the sum of the amounts; the final
      balance itself may be 0. */
  lemma {:induction false} CarriedIsOpeningPlusTotal(b: real, ts: seq<Transaction>)
    requires forall k :: 0 <= k < |ts| ==> b + Total(ts[..k]) != 0.0
    ensures Carried(b, ts) == b + Total(ts)
  {
    if |ts| > 0 {
      var init := ts[..|ts| - 1];
      forall k | 0 <= k < |init| ensures b + Total(init[..k]) != 0.0 {
        assert init[..k] == ts[..k];
      }
      CarriedIsOpeningPlusTotal(b, init);
      assert ts[..|init|] == init;
    }
  }
}
