/** The balance after each listed transaction (`views.py`): one total, less what is newer than the page, then
    backwards row by row. */
module BalanceAfter {
  import opened Wrappers
  import opened Ledger
  import opened QuickEntry
  import opened OpeningBalance
  import opened Pagination

  function KeyOf(tx: Tx): Key { Key(tx.date, tx.id) }

  /** `_signed_impact_for_account`. */
  function SignedImpact(kind: AccountType, debit: bool, amount: int): int { if debit == DebitIncreases(kind) then amount else -amount }

  /** Impact on an account of the transactions of its user that pass a test, among the first n. */
  function ImpactOf(txs: seq<Tx>, a: Account, keep: Tx -> bool, n: nat): int
    requires n <= |txs|
  {
    if n == 0 then 0 else
    var tx := txs[n - 1];
    ImpactOf(txs, a, keep, n - 1) + if tx.user == a.user && keep(tx) then Moves(tx.entries, a) else 0
  }

  /** Replayed balance: every transaction of the account at or before a key. */
  function UpTo(txs: seq<Tx>, a: Account, k: Key): int { ImpactOf(txs, a, (tx: Tx) => !Older(k, KeyOf(tx)), |txs|) }

  function Newer(txs: seq<Tx>, a: Account, k: Key): int {
    ImpactOf(txs, a, (tx: Tx) => Mentions(tx.entries, a.id) && Older(k, KeyOf(tx)), |txs|)
  }

  function Everything(txs: seq<Tx>, a: Account): int { ImpactOf(txs, a, (tx: Tx) => true, |txs|) }

  lemma {:induction false} UntouchedSide(entries: seq<Posting>, account: int, debit: bool, n: nat)
    requires !Mentions(entries, account) && n <= |entries|
    ensures EntrySum(entries, account, debit, n) == 0
  {
    if n > 0 { UntouchedSide(entries, account, debit, n - 1); }
  }

  lemma UntouchedMoves(entries: seq<Posting>, a: Account)
    requires !Mentions(entries, a.id)
    ensures Moves(entries, a) == 0
  {
    UntouchedSide(entries, a.id, true, |entries|);
    UntouchedSide(entries, a.id, false, |entries|);
  }

  /** `_sum_account_entry_impacts`. */
  method SumImpacts(txs: seq<Tx>, a: Account, keep: Tx -> bool) returns (impact: int)
    ensures impact == ImpactOf(txs, a, keep, |txs|)
  {
    impact := 0;
    for i := 0 to |txs|
      invariant impact == ImpactOf(txs, a, keep, i)
    {
      if txs[i].user == a.user && keep(txs[i]) {
        var one := RowImpact(txs[i], a);
        impact := impact + one;
      }
    }
  }

  method RowImpact(tx: Tx, a: Account) returns (impact: int)
    ensures impact == Moves(tx.entries, a)
  {
    impact := 0;
    for j := 0 to |tx.entries|
      invariant impact == Signed(a.kind, EntrySum(tx.entries, a.id, true, j), EntrySum(tx.entries, a.id, false, j))
    {
      var e := tx.entries[j];
      if e.account != a.id { continue; }
      impact := impact + SignedImpact(a.kind, e.debit, e.amount);
    }
  }

  /** The running balance before row i of a page. */
  function Running(txs: seq<Tx>, a: Account, rows: seq<Tx>, i: nat): int
    requires i <= |rows| && rows != []
  {
    if i == 0 then Everything(txs, a) - Newer(txs, a, KeyOf(rows[0])) else Running(txs, a, rows, i - 1) - Moves(rows[i - 1].entries, a)
  }

  /** The balance at the newest row of a page. */
  method StartBalance(txs: seq<Tx>, a: Account, first: Key) returns (running: int)
    ensures running == Everything(txs, a) - Newer(txs, a, first)
  {
    running := SumImpacts(txs, a, (tx: Tx) => true);
    var newer := SumImpacts(txs, a, (tx: Tx) => Mentions(tx.entries, a.id) && Older(first, KeyOf(tx)));
    running := running - newer;
  }

  /** The dictionary after the first n rows. */
  function Filled(txs: seq<Tx>, a: Account, rows: seq<Tx>, n: nat): map<int, int>
    requires n <= |rows|
  {
    if n == 0 then map[] else Filled(txs, a, rows, n - 1)[rows[n - 1].id := Running(txs, a, rows, n - 1)]
  }

  /** `_build_account_balance_after_map`. */
  method BuildBalanceAfterMap(txs: seq<Tx>, a: Account, rows: seq<Tx>) returns (after: map<int, int>)
    ensures after == Filled(txs, a, rows, |rows|)
  {
    after := map[];
    if |rows| == 0 { return; }
    var running := StartBalance(txs, a, KeyOf(rows[0]));
    hide Everything, Newer, Moves;
    for i := 0 to |rows|
      invariant running == Running(txs, a, rows, i)
      invariant after == Filled(txs, a, rows, i)
    {
      after := after[rows[i].id := running];
      var impact := RowImpact(rows[i], a);
      running := running - impact;
    }
  }

  /** Each row of the page has its own running balance, and nothing else has one. */
  lemma {:induction false} FilledAt(txs: seq<Tx>, a: Account, rows: seq<Tx>, n: nat, i: nat)
    requires i < n <= |rows| && forall j :: i < j < |rows| ==> rows[i].id != rows[j].id
    ensures rows[i].id in Filled(txs, a, rows, n) && Filled(txs, a, rows, n)[rows[i].id] == Running(txs, a, rows, i)
  {
    hide Running;
    if i < n - 1 { FilledAt(txs, a, rows, n - 1, i); }
  }

  // ---- Against the replayed balance -----------------------------------------------------------------------------

  /** Everything less what is newer is what is at or before. */
  lemma {:induction false} WithoutNewer(txs: seq<Tx>, a: Account, k: Key, n: nat)
    requires n <= |txs|
    ensures ImpactOf(txs, a, (tx: Tx) => true, n)
            - ImpactOf(txs, a, (tx: Tx) => Mentions(tx.entries, a.id) && Older(k, KeyOf(tx)), n)
            == ImpactOf(txs, a, (tx: Tx) => !Older(k, KeyOf(tx)), n)
  {
    if n > 0 {
      WithoutNewer(txs, a, k, n - 1);
      if !Mentions(txs[n - 1].entries, a.id) { UntouchedMoves(txs[n - 1].entries, a); }
      hide Moves, Mentions, Older;
    }
  }

  /** Between two consecutive rows of the account only the newer one counts. */
  lemma {:induction false} OneBetween(txs: seq<Tx>, a: Account, i: nat, older: Key, n: nat)
    requires i < |txs| && n <= |txs| && txs[i].user == a.user && Older(older, KeyOf(txs[i]))
    requires forall j :: 0 <= j < |txs| && j != i && txs[j].user == a.user && Mentions(txs[j].entries, a.id) ==>
               Older(KeyOf(txs[i]), KeyOf(txs[j])) || !Older(older, KeyOf(txs[j]))
    ensures ImpactOf(txs, a, (tx: Tx) => !Older(KeyOf(txs[i]), KeyOf(tx)), n)
            == ImpactOf(txs, a, (tx: Tx) => !Older(older, KeyOf(tx)), n) + if i < n then Moves(txs[i].entries, a) else 0
  {
    if n > 0 {
      OneBetween(txs, a, i, older, n - 1);
      if !Mentions(txs[n - 1].entries, a.id) { UntouchedMoves(txs[n - 1].entries, a); }
      hide Moves, Mentions, ImpactOf;
      BetweenStep(txs, a, i, older, n);
    }
  }

  lemma BetweenStep(txs: seq<Tx>, a: Account, i: nat, older: Key, n: nat)
    requires i < |txs| && 0 < n <= |txs| && txs[i].user == a.user && Older(older, KeyOf(txs[i]))
    requires forall j :: 0 <= j < |txs| && j != i && txs[j].user == a.user && Mentions(txs[j].entries, a.id) ==>
               Older(KeyOf(txs[i]), KeyOf(txs[j])) || !Older(older, KeyOf(txs[j]))
    requires !Mentions(txs[n - 1].entries, a.id) ==> Moves(txs[n - 1].entries, a) == 0
    ensures ImpactOf(txs, a, (tx: Tx) => !Older(KeyOf(txs[i]), KeyOf(tx)), n) - ImpactOf(txs, a, (tx: Tx) => !Older(older, KeyOf(tx)), n)
            == ImpactOf(txs, a, (tx: Tx) => !Older(KeyOf(txs[i]), KeyOf(tx)), n - 1) - ImpactOf(txs, a, (tx: Tx) => !Older(older, KeyOf(tx)), n - 1)
               + if i == n - 1 then Moves(txs[i].entries, a) else 0
  {
    hide Moves, Mentions;
  }

  /** The sum everything starts from is the account's balance over all dates and statuses. */
  lemma {:induction false} EverythingIsBalance(txs: seq<Tx>, a: Account, n: nat)
    requires n <= |txs|
    ensures ImpactOf(txs, a, (tx: Tx) => true, n)
            == Signed(a.kind, SideTotal(txs, Filter(a.user, None, None), a.id, true, n), SideTotal(txs, Filter(a.user, None, None), a.id, false, n))
  {
    if n > 0 {
      EverythingIsBalance(txs, a, n - 1);
      hide EntrySum;
    }
  }

  // ---- On every page of a filtered list ---------------------------------------------------------------------------

  /** A list filtered by account and, possibly, by date. */
  datatype Window = Window(from: Option<int>, to: Option<int>)

  predicate InWindow(w: Window, day: int) { (w.from.Some? ==> w.from.value <= day) && (w.to.Some? ==> day <= w.to.value) }

  predicate Listed(tx: Tx, a: Account, w: Window) { tx.user == a.user && Mentions(tx.entries, a.id) && InWindow(w, tx.date) }

  function Table(txs: seq<Tx>, a: Account, w: Window): set<Key> {
    set i | 0 <= i < |txs| && Listed(txs[i], a, w) :: KeyOf(txs[i])
  }

  /** The list shows the transactions of the user on the account dated from the first to the last day of the window,
      both included, and only dates within it. */
  lemma TableShows(txs: seq<Tx>, a: Account, w: Window, i: nat, k: Key)
    requires i < |txs|
    ensures var after, before := w.from.Some? ==> txs[i].date >= w.from.value, w.to.Some? ==> txs[i].date <= w.to.value;
            txs[i].user == a.user && Mentions(txs[i].entries, a.id) && after && before ==> KeyOf(txs[i]) in Table(txs, a, w)
    ensures k in Table(txs, a, w) ==> (w.from.Some? ==> k.day >= w.from.value) && (w.to.Some? ==> k.day <= w.to.value)
  {
    hide Mentions;
  }

  ghost predicate IdsUnique(txs: seq<Tx>) { forall i, j :: 0 <= i < j < |txs| ==> txs[i].id != txs[j].id }

  /** Rows are the transactions of a page. */
  ghost predicate RowsOfPage(txs: seq<Tx>, a: Account, w: Window, size: nat, cursor: Option<Key>, rows: seq<Tx>) {
    var results := Paginate(Table(txs, a, w), size, cursor).results;
    && |rows| == |results|
    && forall i :: 0 <= i < |rows| ==> rows[i] in txs && KeyOf(rows[i]) == results[i]
  }

  /** No listed row lies strictly between two consecutive rows of a page. */
  lemma PageHasNoHoles(table: set<Key>, size: nat, cursor: Option<Key>, i: nat, k: Key)
    requires size > 0 && k in table
    requires var results := Paginate(table, size, cursor).results; i + 1 < |results|
    ensures var results := Paginate(table, size, cursor).results;
            !(Older(k, results[i]) && Older(results[i + 1], k))
  {
    PageSplits(table, size, cursor);
    var results := Paginate(table, size, cursor).results;
    hide Paginate;
    if Older(k, results[i]) && Older(results[i + 1], k) {
      BelowRow(table, cursor, results[i], k);
      hide Below, Older;
      NotListedBetween(results, i, k);
    }
  }

  lemma BelowRow(table: set<Key>, cursor: Option<Key>, row: Key, k: Key)
    requires k in table && row in Below(table, cursor) && Older(k, row)
    ensures k in Below(table, cursor)
  {
    if cursor.Some? { OlderTrans(k, row, cursor.value); }
  }

  lemma NotListedBetween(s: seq<Key>, i: nat, k: Key)
    requires StrictlyDescending(s) && i + 1 < |s| && Older(k, s[i]) && Older(s[i + 1], k)
    ensures k !in s && !Older(k, s[|s| - 1])
  {
  }

  lemma RowsAreConsecutive(txs: seq<Tx>, a: Account, w: Window, size: nat, cursor: Option<Key>, rows: seq<Tx>, i: nat, at: nat)
    requires size > 0 && IdsUnique(txs) && RowsOfPage(txs, a, w, size, cursor, rows) && i + 1 < |rows|
    requires at < |txs| && txs[at] == rows[i]
    ensures txs[at].user == a.user && Older(KeyOf(rows[i + 1]), KeyOf(txs[at]))
    ensures forall j :: 0 <= j < |txs| && j != at && txs[j].user == a.user && Mentions(txs[j].entries, a.id) ==>
              Older(KeyOf(txs[at]), KeyOf(txs[j])) || !Older(KeyOf(rows[i + 1]), KeyOf(txs[j]))
  {
    PageRow(txs, a, w, size, cursor, rows, i);
    PageRow(txs, a, w, size, cursor, rows, i + 1);
    PageOrder(txs, a, w, size, cursor, rows, i);
    hide RowsOfPage, Mentions, InWindow;
    forall j | 0 <= j < |txs| && j != at && txs[j].user == a.user && Mentions(txs[j].entries, a.id)
      ensures Older(KeyOf(txs[at]), KeyOf(txs[j])) || !Older(KeyOf(rows[i + 1]), KeyOf(txs[j]))
    {
      assert txs[j].id != txs[at].id;
      NotBetween(txs, a, w, size, cursor, rows, i, j);
    }
  }

  lemma PageRow(txs: seq<Tx>, a: Account, w: Window, size: nat, cursor: Option<Key>, rows: seq<Tx>, i: nat)
    requires size > 0 && IdsUnique(txs) && RowsOfPage(txs, a, w, size, cursor, rows) && i < |rows|
    ensures Listed(rows[i], a, w)
  {
    PageSplits(Table(txs, a, w), size, cursor);
    hide Paginate, Listed, Table, IdsUnique, Older;
    assert KeyOf(rows[i]) in Below(Table(txs, a, w), cursor);
    ListedRow(txs, a, w, rows[i]);
  }

  lemma PageOrder(txs: seq<Tx>, a: Account, w: Window, size: nat, cursor: Option<Key>, rows: seq<Tx>, i: nat)
    requires size > 0 && RowsOfPage(txs, a, w, size, cursor, rows) && i + 1 < |rows|
    ensures Older(KeyOf(rows[i + 1]), KeyOf(rows[i]))
  {
    PageSplits(Table(txs, a, w), size, cursor);
    hide Paginate, Table, Older, Below;
  }

  lemma NotBetween(txs: seq<Tx>, a: Account, w: Window, size: nat, cursor: Option<Key>, rows: seq<Tx>, i: nat, j: nat)
    requires size > 0 && RowsOfPage(txs, a, w, size, cursor, rows) && i + 1 < |rows|
    requires j < |txs| && txs[j].user == a.user && Mentions(txs[j].entries, a.id) && Listed(rows[i], a, w) && Listed(rows[i + 1], a, w)
    ensures !(Older(KeyOf(txs[j]), KeyOf(rows[i])) && Older(KeyOf(rows[i + 1]), KeyOf(txs[j])))
  {
    var k := KeyOf(txs[j]);
    hide Paginate, Mentions;
    if Older(k, KeyOf(rows[i])) && Older(KeyOf(rows[i + 1]), k) {
      assert Listed(txs[j], a, w);
      assert k in Table(txs, a, w);
      hide Table, Older, Listed;
      PageHasNoHoles(Table(txs, a, w), size, cursor, i, k);
    }
  }

  lemma ListedRow(txs: seq<Tx>, a: Account, w: Window, row: Tx)
    requires IdsUnique(txs) && row in txs && KeyOf(row) in Table(txs, a, w)
    ensures Listed(row, a, w)
  {
    var i :| 0 <= i < |txs| && Listed(txs[i], a, w) && KeyOf(txs[i]) == KeyOf(row);
    var j :| 0 <= j < |txs| && txs[j] == row;
    assert i == j;
  }

  lemma NewestRow(txs: seq<Tx>, a: Account, k: Key)
    ensures Everything(txs, a) - Newer(txs, a, k) == UpTo(txs, a, k)
  {
    WithoutNewer(txs, a, k, |txs|);
  }

  /** Stepping from a row to the next older one. */
  lemma NextRow(txs: seq<Tx>, a: Account, w: Window, size: nat, cursor: Option<Key>, rows: seq<Tx>, i: nat)
    requires size > 0 && IdsUnique(txs) && RowsOfPage(txs, a, w, size, cursor, rows) && i + 1 < |rows|
    ensures UpTo(txs, a, KeyOf(rows[i])) - Moves(rows[i].entries, a) == UpTo(txs, a, KeyOf(rows[i + 1]))
  {
    assert rows[i] in txs;
    hide RowsOfPage, IdsUnique, ImpactOf, Moves;
    var at :| 0 <= at < |txs| && txs[at] == rows[i];
    RowsAreConsecutive(txs, a, w, size, cursor, rows, i, at);
    OneBetween(txs, a, at, KeyOf(rows[i + 1]), |txs|);
  }

  lemma {:induction false} RunningIsReplay(txs: seq<Tx>, a: Account, w: Window, size: nat, cursor: Option<Key>, rows: seq<Tx>, i: nat)
    requires size > 0 && IdsUnique(txs) && RowsOfPage(txs, a, w, size, cursor, rows) && i < |rows|
    ensures Running(txs, a, rows, i) == UpTo(txs, a, KeyOf(rows[i]))
  {
    hide RowsOfPage, IdsUnique, Moves, UpTo, Everything, Newer;
    if i == 0 {
      NewestRow(txs, a, KeyOf(rows[0]));
    } else {
      RunningIsReplay(txs, a, w, size, cursor, rows, i - 1);
      NextRow(txs, a, w, size, cursor, rows, i - 1);
    }
  }

  /** On every page of a list filtered by account and date window, the balance shown after each row is the
      replayed sum of all the account's transactions at or before that row. */
  method BalanceAfterPage(txs: seq<Tx>, a: Account, w: Window, size: nat, cursor: Option<Key>, rows: seq<Tx>) returns (after: map<int, int>)
    requires size > 0 && IdsUnique(txs) && RowsOfPage(txs, a, w, size, cursor, rows)
    ensures forall i :: 0 <= i < |rows| ==> rows[i].id in after && after[rows[i].id] == UpTo(txs, a, KeyOf(rows[i]))
  {
    PageIdsDiffer(txs, a, w, size, cursor, rows);
    after := BuildBalanceAfterMap(txs, a, rows);
    forall i | 0 <= i < |rows| ensures rows[i].id in after && after[rows[i].id] == UpTo(txs, a, KeyOf(rows[i])) {
      FilledAt(txs, a, rows, |rows|, i);
      RunningIsReplay(txs, a, w, size, cursor, rows, i);
      hide RowsOfPage, IdsUnique, UpTo, Running, Filled;
    }
  }

  lemma PageIdsDiffer(txs: seq<Tx>, a: Account, w: Window, size: nat, cursor: Option<Key>, rows: seq<Tx>)
    requires size > 0 && IdsUnique(txs) && RowsOfPage(txs, a, w, size, cursor, rows)
    ensures forall i, j :: 0 <= i < j < |rows| ==> rows[i].id != rows[j].id
  {
    PageSplits(Table(txs, a, w), size, cursor);
    hide Paginate, Table;
    forall i, j | 0 <= i < j < |rows| ensures rows[i].id != rows[j].id {
      assert Older(KeyOf(rows[j]), KeyOf(rows[i]));
      assert rows[i] in txs && rows[j] in txs;
      var x :| 0 <= x < |txs| && txs[x] == rows[i];
      var y :| 0 <= y < |txs| && txs[y] == rows[j];
      assert x != y;
    }
  }
}
