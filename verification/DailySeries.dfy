/** The daily balance series (`services_summaries.py`): balances carried forward day by day from one opening
    figure and per-day differences, against the balance of every account recomputed as of each day. */
module DailySeries {
  import opened Wrappers
  import opened FiniteSums
  import opened Money
  import opened Ledger
  import Fx

  /** An ownership multiplier of one, in units of 1e-8. */
  const WHOLE: int := 100_000_000

  /** Rates by date, as the cache resolves them. */
  type Rates = (int, Fx.Pair) -> Option<nat>

  datatype Context = Context(ids: seq<int>, data: map<int, Account>, multipliers: map<int, int>, base: string, pivot: string,
                             user: int, posted: bool, from: int, to: int)

  /** Operative asset and liability accounts of the user, each listed once. */
  ghost predicate ContextOk(c: Context) {
    && Distinct(c.ids) && (forall id :: id in c.data <==> id in c.ids)
    && forall id :: id in c.data ==>
         c.data[id].id == id && c.data[id].user == c.user && (c.data[id].kind.Asset? || c.data[id].kind.Liability?)
  }

  predicate Listed(c: Context) { forall i :: 0 <= i < |c.ids| ==> c.ids[i] in c.data }

  /** A grouped sum of entries; the date is set when grouping by day. */
  datatype EntryTotal = EntryTotal(date: Option<int>, account: int, debit: bool, amount: int)

  // ---- Grouped sums -----------------------------------------------------------------------------------------

  predicate SameGroup(row: EntryTotal, date: Option<int>, account: int, debit: bool) {
    row.date == date && row.account == account && row.debit == debit
  }

  function RowSum(rows: seq<EntryTotal>, date: Option<int>, account: int, debit: bool, n: nat): int
    requires n <= |rows|
  {
    if n == 0 then 0 else
    RowSum(rows, date, account, debit, n - 1) + if SameGroup(rows[n - 1], date, account, debit) then rows[n - 1].amount else 0
  }

  function Grouped(rows: seq<EntryTotal>, date: Option<int>, account: int, debit: bool): int {
    RowSum(rows, date, account, debit, |rows|)
  }

  lemma {:induction false} RowSumUpdated(rows: seq<EntryTotal>, i: nat, amount: int, date: Option<int>, account: int, debit: bool, n: nat)
    requires i < |rows| && n <= |rows|
    ensures RowSum(rows[i := rows[i].(amount := amount)], date, account, debit, n)
            == RowSum(rows, date, account, debit, n)
               + if i < n && SameGroup(rows[i], date, account, debit) then amount - rows[i].amount else 0
  {
    if n > 0 { RowSumUpdated(rows, i, amount, date, account, debit, n - 1); }
  }

  lemma {:induction false} RowSumAppended(rows: seq<EntryTotal>, row: EntryTotal, date: Option<int>, account: int, debit: bool, n: nat)
    requires n <= |rows|
    ensures RowSum(rows + [row], date, account, debit, n) == RowSum(rows, date, account, debit, n)
  {
    if n > 0 { RowSumAppended(rows, row, date, account, debit, n - 1); }
  }

  predicate AllDated(rows: seq<EntryTotal>, date: Option<int>) { forall i :: 0 <= i < |rows| ==> rows[i].date == date }

  /** Grouping: an amount goes to the row of its group, or opens one. */
  method AddToGroup(rows: seq<EntryTotal>, date: Option<int>, account: int, debit: bool, amount: int) returns (after: seq<EntryTotal>)
    ensures forall d, a, s :: Grouped(after, d, a, s)
                              == Grouped(rows, d, a, s) + if d == date && a == account && s == debit then amount else 0
    ensures AllDated(rows, date) ==> AllDated(after, date)
  {
    for i := 0 to |rows|
      invariant forall j :: 0 <= j < i ==> !SameGroup(rows[j], date, account, debit)
    {
      if SameGroup(rows[i], date, account, debit) {
        after := rows[i := rows[i].(amount := rows[i].amount + amount)];
        forall d, a, s ensures Grouped(after, d, a, s)
                               == Grouped(rows, d, a, s) + if d == date && a == account && s == debit then amount else 0 {
          RowSumUpdated(rows, i, rows[i].amount + amount, d, a, s, |rows|);
        }
        return;
      }
    }
    var row := EntryTotal(date, account, debit, amount);
    after := rows + [row];
    forall d, a, s ensures Grouped(after, d, a, s)
                           == Grouped(rows, d, a, s) + if d == date && a == account && s == debit then amount else 0 {
      RowSumAppended(rows, row, d, a, s, |rows|);
    }
  }

  /** Entries of one day. */
  function DaySum(txs: seq<Tx>, user: int, posted: bool, day: int, account: int, debit: bool, n: nat): int
    requires n <= |txs|
  {
    if n == 0 then 0 else
    var tx := txs[n - 1];
    DaySum(txs, user, posted, day, account, debit, n - 1)
    + if tx.user == user && tx.posted == posted && tx.date == day then EntrySum(tx.entries, account, debit, |tx.entries|) else 0
  }

  function UpTo(c: Context, day: int): Filter { Filter(c.user, Some(day), Some(c.posted)) }

  /** A day adds its own entries to everything before it. */
  lemma {:induction false} DayAdds(c: Context, txs: seq<Tx>, day: int, account: int, debit: bool, n: nat)
    requires n <= |txs|
    ensures SideTotal(txs, UpTo(c, day), account, debit, n)
            == SideTotal(txs, UpTo(c, day - 1), account, debit, n) + DaySum(txs, c.user, c.posted, day, account, debit, n)
  {
    if n > 0 {
      DayAdds(c, txs, day, account, debit, n - 1);
      hide EntrySum;
    }
  }

  predicate InRange(c: Context, tx: Tx) { tx.user == c.user && tx.posted == c.posted && c.from <= tx.date <= c.to }

  /** The two queries: sums before the range by account and side, and within it by day as well. */
  method LoadEntries(c: Context, txs: seq<Tx>) returns (historical: seq<EntryTotal>, ranged: seq<EntryTotal>)
    ensures AllDated(historical, None)
    ensures forall a, s :: a in c.data ==> Grouped(historical, None, a, s) == SideTotal(txs, UpTo(c, c.from - 1), a, s, |txs|)
    ensures forall d, a, s :: a in c.data && c.from <= d <= c.to ==>
              Grouped(ranged, Some(d), a, s) == DaySum(txs, c.user, c.posted, d, a, s, |txs|)
  {
    historical, ranged := [], [];
    for i := 0 to |txs|
      invariant AllDated(historical, None)
      invariant forall a, s :: a in c.data ==> Grouped(historical, None, a, s) == SideTotal(txs, UpTo(c, c.from - 1), a, s, i)
      invariant forall d, a, s :: a in c.data && c.from <= d <= c.to ==>
                  Grouped(ranged, Some(d), a, s) == DaySum(txs, c.user, c.posted, d, a, s, i)
    {
      hide Grouped, EntrySum, AllDated;
      var tx := txs[i];
      if Counts(UpTo(c, c.from - 1), tx) {
        historical := GroupEntries(c, historical, None, tx.entries);
      } else if InRange(c, tx) {
        ranged := GroupEntries(c, ranged, Some(tx.date), tx.entries);
      }
    }
  }

  method GroupEntries(c: Context, rows: seq<EntryTotal>, date: Option<int>, entries: seq<Posting>) returns (after: seq<EntryTotal>)
    ensures forall d, a, s :: a in c.data ==>
              Grouped(after, d, a, s) == Grouped(rows, d, a, s) + if d == date then EntrySum(entries, a, s, |entries|) else 0
    ensures AllDated(rows, date) ==> AllDated(after, date)
  {
    after := rows;
    assert forall a, s :: EntrySum(entries, a, s, 0) == 0;
    for j := 0 to |entries|
      invariant forall d, a, s :: a in c.data ==>
                  Grouped(after, d, a, s) == Grouped(rows, d, a, s) + if d == date then EntrySum(entries, a, s, j) else 0
      invariant AllDated(rows, date) ==> AllDated(after, date)
    {
      hide Grouped, AllDated;
      var e := entries[j];
      if e.account in c.data { after := AddToGroup(after, date, e.account, e.debit, e.amount); }
    }
  }

  // ---- Opening and differences ------------------------------------------------------------------------------

  /** `_entry_balance_impact`. */
  function EntryImpact(kind: AccountType, debit: bool, amount: int): int {
    if kind.Asset? then (if debit then amount else -amount)
    else if kind.Liability? then (if debit then -amount else amount)
    else 0
  }

  /** Impact of the first n grouped rows of a date on an account. */
  function ImpactSum(c: Context, rows: seq<EntryTotal>, date: Option<int>, account: int, n: nat): int
    requires n <= |rows|
  {
    if n == 0 then 0 else
    ImpactSum(c, rows, date, account, n - 1)
    + if rows[n - 1].account == account && rows[n - 1].date == date && account in c.data
      then EntryImpact(c.data[account].kind, rows[n - 1].debit, rows[n - 1].amount) else 0
  }

  lemma {:induction false} ImpactIsSigned(c: Context, rows: seq<EntryTotal>, date: Option<int>, account: int, n: nat)
    requires ContextOk(c) && account in c.data && n <= |rows|
    ensures ImpactSum(c, rows, date, account, n)
            == Signed(c.data[account].kind, RowSum(rows, date, account, true, n), RowSum(rows, date, account, false, n))
  {
    if n > 0 { ImpactIsSigned(c, rows, date, account, n - 1); }
  }

  /** `_build_opening_running_balance_by_account`. */
  method OpeningBalances(c: Context, historical: seq<EntryTotal>) returns (running: map<int, int>)
    requires ContextOk(c) && AllDated(historical, None)
    ensures running.Keys == c.data.Keys
    ensures forall a :: a in c.data ==> running[a] == ImpactSum(c, historical, None, a, |historical|)
  {
    running := map id | id in c.data :: 0;
    for i := 0 to |historical|
      invariant running.Keys == c.data.Keys
      invariant forall a :: a in c.data ==> running[a] == ImpactSum(c, historical, None, a, i)
    {
      var e := historical[i];
      if e.account !in c.data { continue; }
      hide ContextOk;
      running := Plus(running, e.account, EntryImpact(c.data[e.account].kind, e.debit, e.amount));
    }
  }

  function DayOf(deltas: map<int, map<int, int>>, day: int): map<int, int> { if day in deltas then deltas[day] else map[] }

  /** `_group_daily_balance_deltas_by_date`. */
  method GroupDeltas(c: Context, ranged: seq<EntryTotal>) returns (deltas: map<int, map<int, int>>)
    ensures forall d, a :: a in c.data ==> Get(DayOf(deltas, d), a) == ImpactSum(c, ranged, Some(d), a, |ranged|)
    ensures forall d :: DayOf(deltas, d).Keys <= c.data.Keys
  {
    deltas := map[];
    for i := 0 to |ranged|
      invariant forall d, a :: a in c.data ==> Get(DayOf(deltas, d), a) == ImpactSum(c, ranged, Some(d), a, i)
      invariant forall d :: DayOf(deltas, d).Keys <= c.data.Keys
    {
      var e := ranged[i];
      if e.account !in c.data || e.date.None? { continue; }
      var impact := EntryImpact(c.data[e.account].kind, e.debit, e.amount);
      hide EntryImpact;
      deltas := deltas[e.date.value := Plus(DayOf(deltas, e.date.value), e.account, impact)];
    }
  }

  /** `_apply_daily_balance_deltas`: the balances of the accounts moved that day change in place. */
  method ApplyDeltas(running: map<int, int>, day: map<int, int>) returns (after: map<int, int>)
    requires day.Keys <= running.Keys
    ensures after.Keys == running.Keys
    ensures forall a :: a in running ==> after[a] == running[a] + Get(day, a)
  {
    after := running;
    var left := day.Keys;
    while left != {}
      invariant left <= day.Keys && after.Keys == running.Keys
      invariant forall a :: a in running ==> after[a] == running[a] + if a in left then 0 else Get(day, a)
      decreases |left|
    {
      assert (forall a :: a !in left) ==> left == {};
      var a :| a in left;
      after := Plus(after, a, day[a]);
      left := left - {a};
    }
  }

  // ---- A row --------------------------------------------------------------------------------------------------

  /** `_convert_entry_amount_to_base_currency`: an amount already in the base currency stays as it is. */
  function ToBase(c: Context, amount: int, currency: string, day: int, rates: Rates): Result<int, Fx.Error> {
    if currency == c.base then Ok(amount)
    else Fx.Convert(amount, currency, c.base, c.pivot, (pair: Fx.Pair) => rates(day, pair), false)
  }

  function MultiplierOf(c: Context, id: int): int { if id in c.multipliers then c.multipliers[id] else WHOLE }

  /** What an account adds to its side, in units of 1e-16. */
  function Part(c: Context, id: int, balance: int, day: int, rates: Rates): Result<int, Fx.Error>
    requires id in c.data
  {
    if MultiplierOf(c, id) <= 0 then Ok(0) else
    var converted := ToBase(c, balance, c.data[id].currency, day, rates);
    if converted.Err? then converted else Ok(converted.value * MultiplierOf(c, id))
  }

  datatype Row = Row(date: int, assets: int, liabilities: int)

  /** Converted, ownership-weighted sums of the balances of the first n accounts. */
  function RowOf(c: Context, balances: map<int, int>, day: int, rates: Rates, n: nat): Result<Row, Fx.Error>
    requires n <= |c.ids| && Listed(c)
  {
    if n == 0 then Ok(Row(day, 0, 0)) else
    var before := RowOf(c, balances, day, rates, n - 1);
    if before.Err? then before else
    var part := Part(c, c.ids[n - 1], Get(balances, c.ids[n - 1]), day, rates);
    if part.Err? then Err(part.error)
    else if c.data[c.ids[n - 1]].kind.Asset? then Ok(before.value.(assets := before.value.assets + part.value))
    else Ok(before.value.(liabilities := before.value.liabilities + part.value))
  }

  lemma {:induction false} RowStops(c: Context, balances: map<int, int>, day: int, rates: Rates, i: nat, n: nat)
    requires i <= n <= |c.ids| && Listed(c)
    requires RowOf(c, balances, day, rates, i).Err?
    ensures RowOf(c, balances, day, rates, n) == RowOf(c, balances, day, rates, i)
  {
    hide Part;
    if i < n { RowStops(c, balances, day, rates, i, n - 1); }
  }

  /** `_serialize_daily_balance_row`, before the totals are printed in cents. */
  method SerializeRow(c: Context, running: map<int, int>, day: int, rates: Rates) returns (row: Result<Row, Fx.Error>)
    requires running.Keys == c.data.Keys && Listed(c)
    ensures row == RowOf(c, running, day, rates, |c.ids|)
  {
    var assets, liabilities := 0, 0;
    for i := 0 to |c.ids|
      invariant RowOf(c, running, day, rates, i) == Ok(Row(day, assets, liabilities))
    {
      var id := c.ids[i];
      var multiplier := MultiplierOf(c, id);
      if multiplier <= 0 { continue; }
      var converted := ToBase(c, running[id], c.data[id].currency, day, rates);
      if converted.Err? {
        RowStops(c, running, day, rates, i + 1, |c.ids|);
        return Err(converted.error);
      }
      hide ToBase;
      var amount := converted.value * multiplier;
      if c.data[id].kind.Asset? { assets := assets + amount; } else { liabilities := liabilities + amount; }
    }
    return Ok(Row(day, assets, liabilities));
  }

  /** The part of an account that counts: all of it unless its ownership says otherwise. */
  function Weight(c: Context, id: int): int { if id in c.multipliers then c.multipliers[id] else WHOLE }

  /** What a balance is worth on a day in the base currency. */
  ghost function Worth(c: Context, id: int, balance: int, day: int, rates: Rates): Option<int>
    requires id in c.data
  {
    if c.data[id].currency == c.base then Some(balance)
    else Fx.Value(balance, c.data[id].currency, c.base, c.pivot, (pair: Fx.Pair) => rates(day, pair))
  }

  /** Weighted worths of the asset accounts, or of the others. */
  ghost function WeightedSum(c: Context, balances: map<int, int>, day: int, rates: Rates, assets: bool, n: nat): int
    requires n <= |c.ids| && Listed(c)
  {
    if n == 0 then 0 else
    var id := c.ids[n - 1];
    var worth := Worth(c, id, Get(balances, id), day, rates);
    WeightedSum(c, balances, day, rates, assets, n - 1)
    + if c.data[id].kind.Asset? == assets && Weight(c, id) > 0 && worth.Some? then worth.value * Weight(c, id) else 0
  }

  lemma PartIs(c: Context, id: int, balance: int, day: int, rates: Rates)
    requires id in c.data
    ensures var part, worth := Part(c, id, balance, day, rates), Worth(c, id, balance, day, rates);
            && (part.Ok? <==> Weight(c, id) <= 0 || worth.Some?)
            && (part.Ok? ==> part.value == if Weight(c, id) > 0 then worth.value * Weight(c, id) else 0)
  {
    Fx.ValueIs(balance, c.data[id].currency, c.base, c.pivot, (pair: Fx.Pair) => rates(day, pair));
    hide Fx.Convert, Fx.Value;
  }

  /** A row adds up the weighted worths of its accounts by side, and is refused exactly when one that counts has no
      rate that day. */
  lemma {:induction false} RowAddsUp(c: Context, balances: map<int, int>, day: int, rates: Rates, n: nat)
    requires n <= |c.ids| && Listed(c)
    ensures var row := RowOf(c, balances, day, rates, n);
            && (row.Ok? <==> forall i :: 0 <= i < n && Weight(c, c.ids[i]) > 0 ==> Worth(c, c.ids[i], Get(balances, c.ids[i]), day, rates).Some?)
            && (row.Ok? ==> row.value == Row(day, WeightedSum(c, balances, day, rates, true, n), WeightedSum(c, balances, day, rates, false, n)))
  {
    if n > 0 {
      RowAddsUp(c, balances, day, rates, n - 1);
      PartIs(c, c.ids[n - 1], Get(balances, c.ids[n - 1]), day, rates);
      hide Part, Worth, Weight;
    }
  }

  // ---- The series -----------------------------------------------------------------------------------------------

  /** The balance of every account recomputed from all entries up to a day. */
  function AsOf(c: Context, txs: seq<Tx>, day: int): map<int, int> {
    map id | id in c.data :: Balance(txs, c.data[id], Some(day), Some(c.posted))
  }

  /** Rows of the first n days, each recomputed from scratch. */
  function Series(c: Context, txs: seq<Tx>, rates: Rates, n: nat): Result<seq<Row>, Fx.Error>
    requires Listed(c)
  {
    if n == 0 then Ok([]) else
    var before := Series(c, txs, rates, n - 1);
    if before.Err? then before else
    var row := RowOf(c, AsOf(c, txs, c.from + n - 1), c.from + n - 1, rates, |c.ids|);
    if row.Err? then Err(row.error) else Ok(before.value + [row.value])
  }

  lemma {:induction false} SeriesStops(c: Context, txs: seq<Tx>, rates: Rates, i: nat, n: nat)
    requires i <= n && Listed(c) && Series(c, txs, rates, i).Err?
    ensures Series(c, txs, rates, n) == Series(c, txs, rates, i)
  {
    hide RowOf, AsOf;
    if i < n { SeriesStops(c, txs, rates, i, n - 1); }
  }

  lemma OpeningIsAsOf(c: Context, txs: seq<Tx>, historical: seq<EntryTotal>, running: map<int, int>)
    requires ContextOk(c) && running.Keys == c.data.Keys
    requires forall a, s :: a in c.data ==> Grouped(historical, None, a, s) == SideTotal(txs, UpTo(c, c.from - 1), a, s, |txs|)
    requires forall a :: a in c.data ==> running[a] == ImpactSum(c, historical, None, a, |historical|)
    ensures running == AsOf(c, txs, c.from - 1)
  {
    forall a | a in c.data ensures running[a] == Balance(txs, c.data[a], Some(c.from - 1), Some(c.posted)) {
      ImpactIsSigned(c, historical, None, a, |historical|);
      assert Grouped(historical, None, a, true) == SideTotal(txs, UpTo(c, c.from - 1), a, true, |txs|);
      assert Grouped(historical, None, a, false) == SideTotal(txs, UpTo(c, c.from - 1), a, false, |txs|);
      hide SideTotal, RowSum, ImpactSum;
    }
    hide Balance;
  }

  /** The differences of every day of the range are what its entries do to each account. */
  ghost predicate DeltasOk(c: Context, txs: seq<Tx>, deltas: map<int, map<int, int>>) {
    && (forall d :: DayOf(deltas, d).Keys <= c.data.Keys)
    && forall d, a :: c.from <= d <= c.to && a in c.data ==> Get(DayOf(deltas, d), a) == DayImpact(c, txs, d, a)
  }

  function DayImpact(c: Context, txs: seq<Tx>, day: int, a: int): int
    requires a in c.data
  {
    Signed(c.data[a].kind, DaySum(txs, c.user, c.posted, day, a, true, |txs|), DaySum(txs, c.user, c.posted, day, a, false, |txs|))
  }

  lemma GroupedDeltasOk(c: Context, txs: seq<Tx>, ranged: seq<EntryTotal>, deltas: map<int, map<int, int>>)
    requires ContextOk(c) && forall d :: DayOf(deltas, d).Keys <= c.data.Keys
    requires forall d, a :: a in c.data ==> Get(DayOf(deltas, d), a) == ImpactSum(c, ranged, Some(d), a, |ranged|)
    requires forall d, a, s :: a in c.data && c.from <= d <= c.to ==>
               Grouped(ranged, Some(d), a, s) == DaySum(txs, c.user, c.posted, d, a, s, |txs|)
    ensures DeltasOk(c, txs, deltas)
  {
    forall d, a | c.from <= d <= c.to && a in c.data ensures Get(DayOf(deltas, d), a) == DayImpact(c, txs, d, a) {
      ImpactIsSigned(c, ranged, Some(d), a, |ranged|);
      assert Grouped(ranged, Some(d), a, true) == DaySum(txs, c.user, c.posted, d, a, true, |txs|);
      assert Grouped(ranged, Some(d), a, false) == DaySum(txs, c.user, c.posted, d, a, false, |txs|);
      hide RowSum, ImpactSum, DaySum, ContextOk;
    }
  }

  /** Carrying the balances of one day to the next. */
  lemma DayMoves(c: Context, txs: seq<Tx>, deltas: map<int, map<int, int>>, at: int, before: map<int, int>, after: map<int, int>)
    requires DeltasOk(c, txs, deltas) && c.from <= at <= c.to && before == AsOf(c, txs, at - 1) && after.Keys == before.Keys
    requires ContextOk(c) && forall a :: a in before ==> after[a] == before[a] + Get(DayOf(deltas, at), a)
    ensures after == AsOf(c, txs, at)
  {
    forall a | a in c.data ensures after[a] == Balance(txs, c.data[a], Some(at), Some(c.posted)) {
      DayAdds(c, txs, at, a, true, |txs|);
      DayAdds(c, txs, at, a, false, |txs|);
      assert Get(DayOf(deltas, at), a) == DayImpact(c, txs, at, a);
      hide SideTotal, DaySum;
    }
    hide Balance;
  }

  /** The opening balances and the differences the day loop starts from. */
  method Prepare(c: Context, txs: seq<Tx>) returns (running: map<int, int>, deltas: map<int, map<int, int>>)
    requires ContextOk(c)
    ensures running == AsOf(c, txs, c.from - 1) && DeltasOk(c, txs, deltas)
  {
    var historical, ranged := LoadEntries(c, txs);
    running := OpeningBalances(c, historical);
    OpeningIsAsOf(c, txs, historical, running);
    hide AsOf;
    deltas := GroupDeltas(c, ranged);
    GroupedDeltasOk(c, txs, ranged, deltas);
  }

  function Days(c: Context): nat { if c.from <= c.to then c.to - c.from + 1 else 0 }

  method NextDay(c: Context, ghost txs: seq<Tx>, running: map<int, int>, deltas: map<int, map<int, int>>, day: int) returns (moved: map<int, int>)
    requires ContextOk(c) && DeltasOk(c, txs, deltas) && c.from <= day <= c.to && running == AsOf(c, txs, day - 1)
    ensures moved == AsOf(c, txs, day)
  {
    assert DayOf(deltas, day).Keys <= running.Keys;
    moved := ApplyDeltas(running, DayOf(deltas, day));
    hide ContextOk, AsOf, DeltasOk, DayOf;
    DayMoves(c, txs, deltas, day, running, moved);
  }

  /** `_serialize_daily_balance_rows`: the day loop. */
  method SerializeRows(c: Context, ghost txs: seq<Tx>, opening: map<int, int>, deltas: map<int, map<int, int>>, rates: Rates)
    returns (rows: Result<seq<Row>, Fx.Error>)
    requires ContextOk(c) && Listed(c) && opening == AsOf(c, txs, c.from - 1) && DeltasOk(c, txs, deltas)
    ensures rows == Series(c, txs, rates, Days(c))
  {
    hide ContextOk, Listed, AsOf, RowOf, DeltasOk;
    var running := opening;
    var out: seq<Row> := [];
    var cursor := c.from;
    while cursor <= c.to
      invariant c.from <= cursor <= Max(c.from, c.to + 1)
      invariant running == AsOf(c, txs, cursor - 1)
      invariant Series(c, txs, rates, cursor - c.from) == Ok(out)
    {
      running := NextDay(c, txs, running, deltas, cursor);
      var row := SerializeDay(c, txs, running, cursor, rates);
      if row.Err? {
        SeriesStops(c, txs, rates, cursor - c.from + 1, Days(c));
        return Err(row.error);
      }
      out := out + [row.value];
      cursor := cursor + 1;
    }
    return Ok(out);
  }

  method SerializeDay(c: Context, ghost txs: seq<Tx>, running: map<int, int>, day: int, rates: Rates) returns (row: Result<Row, Fx.Error>)
    requires Listed(c) && running == AsOf(c, txs, day)
    ensures row == RowOf(c, AsOf(c, txs, day), day, rates, |c.ids|)
  {
    hide RowOf;
    row := SerializeRow(c, running, day, rates);
  }

  /** `_build_daily_balance_rows`: one opening figure, then day by day, gives for every date of the range the
      row computed from each account's balance as of that date; a missing rate on any day rejects. */
  method BuildDailyBalanceRows(c: Context, txs: seq<Tx>, rates: Rates) returns (rows: Result<seq<Row>, Fx.Error>)
    requires ContextOk(c) && Listed(c)
    ensures rows == Series(c, txs, rates, Days(c))
  {
    var running, deltas := Prepare(c, txs);
    hide Series, AsOf, DeltasOk;
    rows := SerializeRows(c, txs, running, deltas, rates);
  }

  /** Every row of a series that is not rejected is dated and computed as of its own day. */
  lemma {:induction false} SeriesRows(c: Context, txs: seq<Tx>, rates: Rates, n: nat, i: nat)
    requires Listed(c) && i < n && Series(c, txs, rates, n).Ok?
    ensures var rows := Series(c, txs, rates, n).value;
            |rows| == n && Ok(rows[i]) == RowOf(c, AsOf(c, txs, c.from + i), c.from + i, rates, |c.ids|)
  {
    SeriesLength(c, txs, rates, n - 1);
    hide AsOf, RowOf;
    if i < n - 1 { SeriesRows(c, txs, rates, n - 1, i); }
  }

  /** The series has a row for every day from the first to the last, both included, and no other. */
  lemma EveryDay(c: Context, txs: seq<Tx>, rates: Rates, day: int)
    requires Listed(c) && Series(c, txs, rates, Days(c)).Ok?
    ensures var rows := Series(c, txs, rates, Days(c)).value;
            if c.from <= day <= c.to then day - c.from < |rows| && rows[day - c.from].date == day
            else forall i :: 0 <= i < |rows| ==> rows[i].date != day
  {
    SeriesLength(c, txs, rates, Days(c));
    forall i | 0 <= i < Days(c) ensures Series(c, txs, rates, Days(c)).value[i].date == c.from + i {
      SeriesRows(c, txs, rates, Days(c), i);
      RowAddsUp(c, AsOf(c, txs, c.from + i), c.from + i, rates, |c.ids|);
      hide AsOf, RowOf, WeightedSum;
    }
    hide Series;
  }

  lemma {:induction false} SeriesLength(c: Context, txs: seq<Tx>, rates: Rates, n: nat)
    requires Listed(c)
    ensures Series(c, txs, rates, n).Ok? ==> |Series(c, txs, rates, n).value| == n
  {
    hide AsOf, RowOf;
    if n > 0 { SeriesLength(c, txs, rates, n - 1); }
  }

  /** Debits less credits of the first n accounts as of a day. */
  function NetSum(c: Context, txs: seq<Tx>, day: int, n: nat): int
    requires n <= |c.ids|
  {
    if n == 0 then 0 else NetSum(c, txs, day, n - 1) + Net(txs, UpTo(c, day), c.ids[n - 1], |txs|)
  }

  predicate OneCurrency(c: Context) {
    forall i :: 0 <= i < |c.ids| ==> c.ids[i] in c.data && c.data[c.ids[i]].currency == c.base && MultiplierOf(c, c.ids[i]) == WHOLE
  }

  /** In the base currency and without ownership filter, assets less liabilities of a row are the debits less
      the credits of its accounts up to that day. */
  lemma {:induction false} RowIsNet(c: Context, txs: seq<Tx>, day: int, rates: Rates, n: nat)
    requires ContextOk(c) && Listed(c) && OneCurrency(c) && n <= |c.ids|
    ensures var row := RowOf(c, AsOf(c, txs, day), day, rates, n);
            row.Ok? && row.value.assets - row.value.liabilities == NetSum(c, txs, day, n) * WHOLE
  {
    if n > 0 {
      RowIsNet(c, txs, day, rates, n - 1);
      var id := c.ids[n - 1];
      assert id in c.data && c.data[id].id == id && (c.data[id].kind.Asset? || c.data[id].kind.Liability?);
      assert Get(AsOf(c, txs, day), id) == Balance(txs, c.data[id], Some(day), Some(c.posted));
      hide SideTotal, ContextOk, OneCurrency, Listed, Fx.Convert;
    }
  }
}
