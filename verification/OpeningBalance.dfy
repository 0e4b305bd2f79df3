/** The book of a household and its two writers: quick entries and the synchronisation of opening balances
    (`sync_net_worth_opening_balance_transaction`), with what every run of them keeps. */
module OpeningBalance {
  import opened Wrappers
  import opened FiniteSums
  import opened Money
  import opened Ledger
  import opened QuickEntry

  // ---- State ----------------------------------------------------------------------------------------------

  /** `equity` finds the system equity account of a user and currency. */
  datatype Book = Book(accounts: map<int, Account>, equity: map<(int, string), int>, nextAccount: int, txs: seq<Tx>, nextTx: int)

  /** Opening balances only apply to assets and liabilities. */
  datatype SyncError = NotAPosition

  /** `get_or_create_system_equity_account`. */
  function WithEquity(b: Book, user: int, currency: string): Book {
    if (user, currency) in b.equity then b else
    b.(accounts := b.accounts[b.nextAccount := Account(b.nextAccount, user, Equity, currency)],
       equity := b.equity[(user, currency) := b.nextAccount], nextAccount := b.nextAccount + 1)
  }

  predicate Mentions(entries: seq<Posting>, account: int) { exists i :: 0 <= i < |entries| && entries[i].account == account }

  predicate Opens(tx: Tx, user: int, p: NetWorthItem, account: int) {
    tx.opening == Some(p) && tx.user == user && Mentions(tx.entries, account)
  }

  /** The latest opening by date, then id, among the first n. */
  function FindOpening(txs: seq<Tx>, user: int, p: NetWorthItem, account: int, n: nat): (found: Option<nat>)
    requires n <= |txs|
    ensures found.Some? ==> found.value < n && Opens(txs[found.value], user, p, account)
    ensures found.None? ==> forall i :: 0 <= i < n ==> !Opens(txs[i], user, p, account)
  {
    if n == 0 then None else
    var before := FindOpening(txs, user, p, account, n - 1);
    if !Opens(txs[n - 1], user, p, account) then before
    else if before.None? || txs[n - 1].date > txs[before.value].date
            || (txs[n - 1].date == txs[before.value].date && txs[n - 1].id > txs[before.value].id) then Some(n - 1)
    else before
  }

  /** No other opening of the position on the account is later, by date and then id. */
  lemma {:induction false} LatestOpening(txs: seq<Tx>, user: int, p: NetWorthItem, account: int, n: nat)
    requires n <= |txs| && FindOpening(txs, user, p, account, n).Some?
    ensures var found := txs[FindOpening(txs, user, p, account, n).value];
            forall j :: 0 <= j < n && Opens(txs[j], user, p, account) ==>
              txs[j].date < found.date || (txs[j].date == found.date && txs[j].id <= found.id)
  {
    hide Opens;
    if n > 0 && FindOpening(txs, user, p, account, n - 1).Some? { LatestOpening(txs, user, p, account, n - 1); }
  }

  /** `_resolve_opening_balance_sides`: whether the position is debited. */
  function OpeningDebits(kind: AccountType, amount: int): bool { if kind.Asset? then amount > 0 else amount <= 0 }

  function OpeningEntries(a: Account, equity: int, amount: int): seq<Posting> {
    var debits := OpeningDebits(a.kind, amount);
    [Posting(a.id, debits, Abs(amount), a.currency), Posting(equity, !debits, Abs(amount), a.currency)]
  }

  /** The last entry on an account among the first n (the rows are indexed by account). */
  function EntryOf(entries: seq<Posting>, account: int, n: nat): (found: Option<nat>)
    requires n <= |entries|
    ensures found.Some? ==> found.value < n && entries[found.value].account == account
    ensures found.None? ==> forall i :: 0 <= i < n ==> entries[i].account != account
  {
    if n == 0 then None else if entries[n - 1].account == account then Some(n - 1) else EntryOf(entries, account, n - 1)
  }

  /** The entries of an existing opening after it is brought to an amount. */
  function UpdatedEntries(entries: seq<Posting>, a: Account, equity: int, amount: int): seq<Posting> {
    var own := EntryOf(entries, a.id, |entries|);
    var other := EntryOf(entries, equity, |entries|);
    var newest := OpeningEntries(a, equity, amount);
    if own.None? || other.None? then newest
    else entries[own.value := newest[0]][other.value := newest[1]]
  }

  function Without(txs: seq<Tx>, i: nat): seq<Tx>
    requires i < |txs|
  {
    txs[..i] + txs[i + 1..]
  }

  function SyncStep(b: Book, a: Account, amount: int, date: int, p: NetWorthItem): (Book, Option<SyncError>) {
    var found := FindOpening(b.txs, a.user, p, a.id, |b.txs|);
    if amount == 0 then
      (if found.Some? then b.(txs := Without(b.txs, found.value)) else b, None)
    else if !a.kind.Asset? && !a.kind.Liability? then (b, Some(NotAPosition))
    else
      var e := WithEquity(b, a.user, a.currency);
      var equity := e.equity[(a.user, a.currency)];
      if found.None? then
        (e.(txs := e.txs + [Tx(e.nextTx, a.user, date, true, false, Some(p), OpeningEntries(a, equity, amount))], nextTx := e.nextTx + 1), None)
      else
        var tx := e.txs[found.value];
        (e.(txs := e.txs[found.value := tx.(date := date, posted := true, entries := UpdatedEntries(tx.entries, a, equity, amount))]), None)
  }

  ghost function QuickStep(b: Book, q: Quick, user: int): (Book, Option<Refusal>) {
    var verdict := Verdict(q, user);
    if verdict.Err? then (b, Some(verdict.error))
    else (b.(txs := b.txs + [TxOf(q, user, b.nextTx, verdict.value)], nextTx := b.nextTx + 1), None)
  }

  datatype Request = Enter(quick: Quick, user: int) | Sync(account: Account, amount: int, date: int, position: NetWorthItem)

  ghost function Serve(b: Book, r: Request): Book {
    match r
    case Enter(q, user) => QuickStep(b, q, user).0
    case Sync(a, amount, date, p) => SyncStep(b, a, amount, date, p).0
  }

  ghost function Served(b: Book, rs: seq<Request>, n: nat): Book
    requires n <= |rs|
  {
    if n == 0 then b else Serve(Served(b, rs, n - 1), rs[n - 1])
  }

  // ---- The invariant ----------------------------------------------------------------------------------------

  ghost predicate EquityOk(b: Book) {
    forall k :: k in b.equity ==>
      b.equity[k] in b.accounts && b.accounts[b.equity[k]].kind == Equity && b.accounts[b.equity[k]].currency == k.1
  }

  ghost predicate AccountsOk(b: Book) { forall id :: id in b.accounts ==> b.accounts[id].id == id && id < b.nextAccount }

  /** An opening has its position entry first and an equity entry second. */
  ghost predicate OpeningOk(accounts: map<int, Account>, tx: Tx) {
    tx.opening.Some? ==>
      && |tx.entries| == 2 && !tx.exchange
      && tx.entries[0].account in accounts && tx.entries[1].account in accounts
      && !accounts[tx.entries[0].account].kind.Equity? && accounts[tx.entries[1].account].kind.Equity?
  }

  /** At most one opening per position and account. */
  ghost predicate OpeningsUnique(txs: seq<Tx>) {
    forall i, j :: 0 <= i < j < |txs| && txs[i].opening.Some? && txs[j].opening.Some? && |txs[i].entries| > 0 && |txs[j].entries| > 0 ==>
      txs[i].opening != txs[j].opening || txs[i].user != txs[j].user || txs[i].entries[0].account != txs[j].entries[0].account
  }

  ghost predicate OpeningsOk(b: Book) { forall i :: 0 <= i < |b.txs| ==> OpeningOk(b.accounts, b.txs[i]) }

  ghost predicate BookInv(b: Book) {
    AccountsOk(b) && EquityOk(b) && LedgerOk(b.accounts, b.txs) && OpeningsOk(b) && OpeningsUnique(b.txs)
  }

  /** Requests name accounts of the book as they are stored. */
  ghost predicate Named(b: Book, a: Account) { a.id in b.accounts && b.accounts[a.id] == a }

  ghost predicate RequestOk(b: Book, r: Request) {
    match r
    case Enter(q, user) =>
      && Named(b, q.account) && Named(b, q.counterparty)
      && (q.liability.Some? ==> Named(b, q.liability.value)) && (q.interestAccount.Some? ==> Named(b, q.interestAccount.value))
    case Sync(a, _, _, _) => Named(b, a)
  }

  // ---- Every request keeps it ---------------------------------------------------------------------------------

  lemma {:induction false} GapOfPostings(lines: seq<Line>, c: string, n: nat)
    requires n <= |lines|
    ensures Gap(Postings(lines), c, n) == LineSum(lines, c, true, n) - LineSum(lines, c, false, n)
  {
    if n > 0 { GapOfPostings(lines, c, n - 1); }
  }

  /** What a quick entry writes keeps the ledger in order. */
  lemma QuickTxOk(b: Book, q: Quick, user: int)
    requires BookInv(b) && RequestOk(b, Enter(q, user)) && Verdict(q, user).Ok?
    ensures TxOk(b.accounts, TxOf(q, user, b.nextTx, Verdict(q, user).value))
  {
    var lines := Verdict(q, user).value;
    VerdictIsPayload(q, user);
    NoFault(lines, user, |lines|);
    LinesNamed(b, q, user);
    hide BookInv, RequestOk, Payload;
    if !Exchanges(q) {
      forall c ensures Gap(Postings(lines), c, |lines|) == 0 {
        GapOfPostings(lines, c, |lines|);
        hide FirstFault;
      }
    }
    hide FirstFault, LinesBalance, Check, Verdict;
  }

  lemma LinesNamed(b: Book, q: Quick, user: int)
    requires RequestOk(b, Enter(q, user)) && Payload(q).Ok?
    ensures forall i :: 0 <= i < |Payload(q).value| ==> Named(b, Payload(q).value[i].account)
  {
  }

  lemma QuickKeeps(b: Book, q: Quick, user: int)
    requires BookInv(b) && RequestOk(b, Enter(q, user))
    ensures BookInv(QuickStep(b, q, user).0)
  {
    if Verdict(q, user).Ok? {
      QuickTxOk(b, q, user);
      hide Verdict, TxOk, Named, Postings;
    }
  }

  lemma WithEquityKeeps(b: Book, user: int, currency: string)
    requires BookInv(b)
    ensures var e := WithEquity(b, user, currency);
            && BookInv(e) && (user, currency) in e.equity && e.txs == b.txs && e.nextTx == b.nextTx
            && forall id :: id in b.accounts ==> id in e.accounts && e.accounts[id] == b.accounts[id]
  {
    var e := WithEquity(b, user, currency);
    forall i | 0 <= i < |e.txs| ensures TxOk(e.accounts, e.txs[i]) && OpeningOk(e.accounts, e.txs[i]) {
      assert TxOk(b.accounts, b.txs[i]) && OpeningOk(b.accounts, b.txs[i]);
      hide Gap;
    }
    hide TxOk, OpeningOk;
  }

  lemma OpeningEntriesOk(b: Book, a: Account, equity: int, amount: int)
    requires BookInv(b) && Named(b, a) && !a.kind.Equity? && amount != 0
    requires (a.user, a.currency) in b.equity && equity == b.equity[(a.user, a.currency)]
    ensures var entries := OpeningEntries(a, equity, amount);
            && a.id != equity
            && (forall id, user, date, p :: TxOk(b.accounts, Tx(id, user, date, true, false, p, entries)))
            && (forall id, user, date, p :: OpeningOk(b.accounts, Tx(id, user, date, true, false, p, entries)))
  {
    var entries := OpeningEntries(a, equity, amount);
    forall c ensures Gap(entries, c, 2) == 0 {
      assert Gap(entries, c, 0) == 0;
      assert Gap(entries, c, 1) == if a.currency != c then 0 else if entries[0].debit then Abs(amount) else -Abs(amount);
    }
    hide Gap;
    assert equity in b.accounts && b.accounts[equity].currency == a.currency;
  }

  /** Bringing an existing opening to an amount leaves the entries a new one would have. */
  lemma UpdatedIsFresh(b: Book, i: nat, a: Account, equity: int, amount: int, p: NetWorthItem)
    requires BookInv(b) && Named(b, a) && !a.kind.Equity? && i < |b.txs| && Opens(b.txs[i], a.user, p, a.id)
    requires (a.user, a.currency) in b.equity && equity == b.equity[(a.user, a.currency)]
    ensures UpdatedEntries(b.txs[i].entries, a, equity, amount) == OpeningEntries(a, equity, amount)
    ensures b.txs[i].entries[0].account == a.id
  {
    var entries := b.txs[i].entries;
    assert OpeningOk(b.accounts, b.txs[i]);
    assert b.accounts[equity].kind == Equity;
    hide BookInv, OpeningEntries;
    var own := EntryOf(entries, a.id, 2);
    assert own == Some(0);
    var other := EntryOf(entries, equity, 2);
    assert other.None? || other == Some(1);
  }

  lemma {:induction false} FoundIsOnly(b: Book, a: Account, p: NetWorthItem, i: nat)
    requires BookInv(b) && Named(b, a) && !a.kind.Equity? && i < |b.txs|
    requires FindOpening(b.txs, a.user, p, a.id, |b.txs|) == Some(i)
    ensures forall j :: 0 <= j < |b.txs| && j != i ==> !Opens(b.txs[j], a.user, p, a.id)
  {
    forall j | 0 <= j < |b.txs| && j != i ensures !Opens(b.txs[j], a.user, p, a.id) {
      assert OpeningOk(b.accounts, b.txs[j]) && OpeningOk(b.accounts, b.txs[i]);
      hide LedgerOk, FindOpening;
      if Opens(b.txs[j], a.user, p, a.id) {
        OpensFirst(b, j, a, p);
        OpensFirst(b, i, a, p);
      }
    }
  }

  lemma OpensFirst(b: Book, i: nat, a: Account, p: NetWorthItem)
    requires Named(b, a) && !a.kind.Equity? && i < |b.txs| && OpeningOk(b.accounts, b.txs[i]) && Opens(b.txs[i], a.user, p, a.id)
    ensures b.txs[i].entries[0].account == a.id
  {
  }

  lemma SyncKeeps(b: Book, a: Account, amount: int, date: int, p: NetWorthItem)
    requires BookInv(b) && Named(b, a)
    ensures BookInv(SyncStep(b, a, amount, date, p).0)
  {
    var found := FindOpening(b.txs, a.user, p, a.id, |b.txs|);
    hide FindOpening;
    if amount == 0 {
      if found.Some? { WithoutKeeps(b, found.value); }
    } else if a.kind.Asset? || a.kind.Liability? {
      WithEquityKeeps(b, a.user, a.currency);
      var e := WithEquity(b, a.user, a.currency);
      var equity := e.equity[(a.user, a.currency)];
      hide WithEquity;
      OpeningEntriesOk(e, a, equity, amount);
      if found.None? {
        AppendedKeeps(e, a, Tx(e.nextTx, a.user, date, true, false, Some(p), OpeningEntries(a, equity, amount)), p);
      } else {
        UpdatedIsFresh(e, found.value, a, equity, amount, p);
        var tx := e.txs[found.value].(date := date, posted := true, entries := OpeningEntries(a, equity, amount));
        assert OpeningOk(e.accounts, e.txs[found.value]);
        assert tx == Tx(tx.id, tx.user, date, true, false, Some(p), OpeningEntries(a, equity, amount));
        UpdatedKeeps(e, found.value, tx);
      }
    }
  }

  lemma WithoutKeeps(b: Book, i: nat)
    requires BookInv(b) && i < |b.txs|
    ensures BookInv(b.(txs := Without(b.txs, i)))
  {
    hide TxOk, OpeningOk;
    var txs := Without(b.txs, i);
    assert forall k :: 0 <= k < |txs| ==> txs[k] == b.txs[if k < i then k else k + 1];
  }

  lemma AppendedKeeps(b: Book, a: Account, tx: Tx, p: NetWorthItem)
    requires BookInv(b) && Named(b, a) && TxOk(b.accounts, tx) && OpeningOk(b.accounts, tx)
    requires tx.opening == Some(p) && tx.user == a.user && |tx.entries| == 2 && tx.entries[0].account == a.id
    requires forall i :: 0 <= i < |b.txs| ==> !Opens(b.txs[i], a.user, p, a.id)
    ensures BookInv(b.(txs := b.txs + [tx], nextTx := b.nextTx + 1))
  {
    forall i | 0 <= i < |b.txs| && b.txs[i].opening == Some(p) && b.txs[i].user == a.user && |b.txs[i].entries| > 0
      ensures b.txs[i].entries[0].account != a.id
    {
      assert !Opens(b.txs[i], a.user, p, a.id);
    }
    hide TxOk, OpeningOk, EquityOk, AccountsOk, Opens;
  }

  lemma UpdatedKeeps(b: Book, i: nat, tx: Tx)
    requires BookInv(b) && i < |b.txs| && TxOk(b.accounts, tx) && OpeningOk(b.accounts, tx) && b.txs[i].opening.Some?
    requires tx.opening == b.txs[i].opening && tx.user == b.txs[i].user && |tx.entries| == 2 && |b.txs[i].entries| == 2
    requires tx.entries[0].account == b.txs[i].entries[0].account
    ensures BookInv(b.(txs := b.txs[i := tx]))
  {
    hide TxOk, OpeningOk;
  }

  /** Over every run of quick entries and opening synchronisations the ledger stays in order, and so the
      accounting equation holds at every date and status. */
  lemma {:induction false} ServedKeeps(b: Book, rs: seq<Request>, n: nat)
    requires BookInv(b) && n <= |rs| && forall i :: 0 <= i < |rs| ==> RequestOk(Served(b, rs, i), rs[i])
    ensures BookInv(Served(b, rs, n))
  {
    hide BookInv, RequestOk, QuickStep, SyncStep;
    if n > 0 {
      ServedKeeps(b, rs, n - 1);
      var before := Served(b, rs, n - 1);
      match rs[n - 1] {
        case Enter(q, user) => QuickKeeps(before, q, user);
        case Sync(a, amount, date, p) => NamedInRequest(before, a, amount, date, p); SyncKeeps(before, a, amount, date, p);
      }
    }
  }

  lemma NamedInRequest(b: Book, a: Account, amount: int, date: int, p: NetWorthItem)
    requires RequestOk(b, Sync(a, amount, date, p))
    ensures Named(b, a)
  {
  }

  lemma EquationAlways(b: Book, rs: seq<Request>, n: nat, f: Filter, currency: string)
    requires BookInv(b) && n <= |rs| && forall i :: 0 <= i < |rs| ==> RequestOk(Served(b, rs, i), rs[i])
    ensures var now := Served(b, rs, n);
            Total(BalancesOf(now.accounts, now.txs, f, currency, true))
            == Total(BalancesOf(now.accounts, now.txs, f, currency, false)) + ExchangeGap(now.txs, f, currency, |now.txs|)
  {
    ServedKeeps(b, rs, n);
    var now := Served(b, rs, n);
    hide Served, RequestOk, BalancesOf, ExchangeGap;
    AccountingEquation(now.accounts, now.txs, f, currency);
  }

  // ---- What a synchronisation does to balances ------------------------------------------------------------------

  lemma {:induction false} SideTotalWithout(txs: seq<Tx>, i: nat, f: Filter, account: int, debit: bool, n: nat)
    requires i < |txs| && n <= |txs| - 1
    ensures SideTotal(Without(txs, i), f, account, debit, n)
            == if n <= i then SideTotal(txs, f, account, debit, n)
               else SideTotal(txs, f, account, debit, n + 1) - Counted(f, txs[i], account, debit)
  {
    if n > 0 {
      SideTotalWithout(txs, i, f, account, debit, n - 1);
      assert Without(txs, i)[n - 1] == txs[if n - 1 < i then n - 1 else n];
      hide Counted;
    }
  }

  lemma {:induction false} SideTotalUpdated(txs: seq<Tx>, i: nat, tx: Tx, f: Filter, account: int, debit: bool, n: nat)
    requires i < |txs| && n <= |txs|
    ensures SideTotal(txs[i := tx], f, account, debit, n)
            == SideTotal(txs, f, account, debit, n)
               + if i < n then Counted(f, tx, account, debit) - Counted(f, txs[i], account, debit) else 0
  {
    if n > 0 {
      SideTotalUpdated(txs, i, tx, f, account, debit, n - 1);
      hide Counted;
    }
  }

  /** What a transaction contributes to a balance. */
  function Share(tx: Tx, a: Account, asOf: Option<int>, posted: Option<bool>): int {
    if Counts(Filter(a.user, asOf, posted), tx) then Moves(tx.entries, a) else 0
  }

  lemma RemovalMoves(txs: seq<Tx>, i: nat, a: Account, asOf: Option<int>, posted: Option<bool>)
    requires i < |txs|
    ensures Balance(Without(txs, i), a, asOf, posted) == Balance(txs, a, asOf, posted) - Share(txs[i], a, asOf, posted)
  {
    var f := Filter(a.user, asOf, posted);
    SideTotalWithout(txs, i, f, a.id, true, |txs| - 1);
    SideTotalWithout(txs, i, f, a.id, false, |txs| - 1);
    RemovedLast(txs, i, f, a.id);
    hide SideTotal, EntrySum;
  }

  lemma RemovedLast(txs: seq<Tx>, i: nat, f: Filter, account: int)
    requires i < |txs|
    ensures i == |txs| - 1 ==>
              forall debit ::
                SideTotal(txs, f, account, debit, |txs| - 1)
                == SideTotal(txs, f, account, debit, |txs|) - Counted(f, txs[i], account, debit)
  {
  }

  lemma UpdateMoves(txs: seq<Tx>, i: nat, tx: Tx, a: Account, asOf: Option<int>, posted: Option<bool>)
    requires i < |txs|
    ensures Balance(txs[i := tx], a, asOf, posted)
            == Balance(txs, a, asOf, posted) - Share(txs[i], a, asOf, posted) + Share(tx, a, asOf, posted)
  {
    var f := Filter(a.user, asOf, posted);
    SideTotalUpdated(txs, i, tx, f, a.id, true, |txs|);
    SideTotalUpdated(txs, i, tx, f, a.id, false, |txs|);
    hide SideTotal, EntrySum;
  }

  lemma OpeningMoves(a: Account, equity: int, amount: int)
    requires (a.kind.Asset? || a.kind.Liability?) && a.id != equity && amount != 0
    ensures Moves(OpeningEntries(a, equity, amount), a) == amount
    ensures forall other: Account :: other.id != a.id && other.id != equity ==> Moves(OpeningEntries(a, equity, amount), other) == 0
  {
    var entries := OpeningEntries(a, equity, amount);
    forall id, debit ensures EntrySum(entries, id, debit, 2) == OnSide(entries[0], id, debit) + OnSide(entries[1], id, debit) {
      SideOfTwo(entries, id, debit);
    }
    hide EntrySum;
  }

  /** The balance the openings of a position put on an account, all dates and statuses. */
  function OpeningImpact(txs: seq<Tx>, a: Account, p: NetWorthItem, n: nat): int
    requires n <= |txs|
  {
    if n == 0 then 0 else
    OpeningImpact(txs, a, p, n - 1) + if Opens(txs[n - 1], a.user, p, a.id) then Moves(txs[n - 1].entries, a) else 0
  }

  lemma {:induction false} OnlyImpact(txs: seq<Tx>, a: Account, p: NetWorthItem, i: nat, n: nat)
    requires i < |txs| && n <= |txs| && forall j :: 0 <= j < |txs| && j != i ==> !Opens(txs[j], a.user, p, a.id)
    ensures OpeningImpact(txs, a, p, n) == if i < n && Opens(txs[i], a.user, p, a.id) then Moves(txs[i].entries, a) else 0
  {
    hide Opens, Moves;
    if n > 0 { OnlyImpact(txs, a, p, i, n - 1); }
  }

  lemma {:induction false} NoImpact(txs: seq<Tx>, a: Account, p: NetWorthItem, n: nat)
    requires n <= |txs| && forall j :: 0 <= j < |txs| ==> !Opens(txs[j], a.user, p, a.id)
    ensures OpeningImpact(txs, a, p, n) == 0
  {
    hide Opens, Moves;
    if n > 0 { NoImpact(txs, a, p, n - 1); }
  }

  /** Where the openings of a position stand after a synchronisation: none for zero, otherwise exactly one,
      with the entries of a new opening, on the given date. */
  lemma SyncShape(b: Book, a: Account, amount: int, date: int, p: NetWorthItem) returns (i: nat)
    requires BookInv(b) && Named(b, a) && (a.kind.Asset? || a.kind.Liability?)
    ensures var after := SyncStep(b, a, amount, date, p).0;
            && (amount == 0 ==> forall j :: 0 <= j < |after.txs| ==> !Opens(after.txs[j], a.user, p, a.id))
            && (amount != 0 ==>
                  && (a.user, a.currency) in after.equity && a.id != after.equity[(a.user, a.currency)]
                  && i < |after.txs| && FindOpening(after.txs, a.user, p, a.id, |after.txs|) == Some(i)
                  && (forall j :: 0 <= j < |after.txs| && j != i ==> !Opens(after.txs[j], a.user, p, a.id))
                  && after.txs[i].entries == OpeningEntries(a, after.equity[(a.user, a.currency)], amount)
                  && after.txs[i].date == date && after.txs[i].posted)
  {
    i := 0;
    var found := FindOpening(b.txs, a.user, p, a.id, |b.txs|);
    if found.Some? { FoundIsOnly(b, a, p, found.value); }
    if amount == 0 {
      hide FindOpening, BookInv;
    } else {
      i := if found.Some? then found.value else |b.txs|;
      SyncWrites(b, a, amount, date, p);
      hide FindOpening, BookInv, SyncStep, OpeningEntries;
      FindsOnly(SyncStep(b, a, amount, date, p).0.txs, a, p, i);
    }
  }

  lemma FindsOnly(txs: seq<Tx>, a: Account, p: NetWorthItem, i: nat)
    requires i < |txs| && Opens(txs[i], a.user, p, a.id)
    requires forall j :: 0 <= j < |txs| && j != i ==> !Opens(txs[j], a.user, p, a.id)
    ensures FindOpening(txs, a.user, p, a.id, |txs|) == Some(i)
  {
    hide Opens;
    var again := FindOpening(txs, a.user, p, a.id, |txs|);
    hide FindOpening;
  }

  lemma SyncWrites(b: Book, a: Account, amount: int, date: int, p: NetWorthItem)
    requires BookInv(b) && Named(b, a) && (a.kind.Asset? || a.kind.Liability?) && amount != 0
    ensures var after := SyncStep(b, a, amount, date, p).0;
            var found := FindOpening(b.txs, a.user, p, a.id, |b.txs|);
            var i := if found.Some? then found.value else |b.txs|;
            && (a.user, a.currency) in after.equity && a.id != after.equity[(a.user, a.currency)]
            && i < |after.txs| && |after.txs| == (if found.Some? then |b.txs| else |b.txs| + 1)
            && after.txs[i].entries == OpeningEntries(a, after.equity[(a.user, a.currency)], amount)
            && after.txs[i].date == date && after.txs[i].posted && Opens(after.txs[i], a.user, p, a.id)
            && forall j :: 0 <= j < |b.txs| && j != i ==> after.txs[j] == b.txs[j]
  {
    var found := FindOpening(b.txs, a.user, p, a.id, |b.txs|);
    WithEquityKeeps(b, a.user, a.currency);
    var e := WithEquity(b, a.user, a.currency);
    var equity := e.equity[(a.user, a.currency)];
    OpeningEntriesOk(e, a, equity, amount);
    if found.Some? { UpdatedIsFresh(e, found.value, a, equity, amount, p); }
    var entries := OpeningEntries(a, equity, amount);
    assert entries[0].account == a.id && Mentions(entries, a.id);
    hide WithEquity, BookInv, FindOpening, OpeningEntries, UpdatedEntries;
  }

  /** A synchronisation leaves the openings of the position worth exactly the given amount on its account,
      zero included, whether the account is an asset or a liability. */
  lemma SyncSetsImpact(b: Book, a: Account, amount: int, date: int, p: NetWorthItem)
    requires BookInv(b) && Named(b, a) && (a.kind.Asset? || a.kind.Liability?)
    ensures var after := SyncStep(b, a, amount, date, p).0;
            OpeningImpact(after.txs, a, p, |after.txs|) == amount
  {
    var after := SyncStep(b, a, amount, date, p).0;
    var i := SyncShape(b, a, amount, date, p);
    hide BookInv, SyncStep, OpeningEntries, FindOpening;
    if amount == 0 {
      NoImpact(after.txs, a, p, |after.txs|);
    } else {
      OnlyImpact(after.txs, a, p, i, |after.txs|);
      OpeningMoves(a, after.equity[(a.user, a.currency)], amount);
      hide Moves;
    }
  }

  /** Synchronising twice with the same figures is synchronising once. */
  lemma SyncIdempotent(b: Book, a: Account, amount: int, date: int, p: NetWorthItem)
    requires BookInv(b) && Named(b, a) && (a.kind.Asset? || a.kind.Liability?)
    ensures var after := SyncStep(b, a, amount, date, p).0;
            SyncStep(after, a, amount, date, p) == (after, None)
  {
    var after := SyncStep(b, a, amount, date, p).0;
    var i := SyncShape(b, a, amount, date, p);
    SyncKeeps(b, a, amount, date, p);
    SyncKeepsNames(b, a, amount, date, p);
    hide BookInv, OpeningEntries, FindOpening;
    if amount != 0 {
      UpdatedIsFresh(after, i, a, after.equity[(a.user, a.currency)], amount, p);
      hide SyncStep, WithEquity;
      SyncAgain(after, a, amount, date, p, i);
    }
  }

  lemma SyncKeepsNames(b: Book, a: Account, amount: int, date: int, p: NetWorthItem)
    requires BookInv(b) && Named(b, a)
    ensures Named(SyncStep(b, a, amount, date, p).0, a)
  {
    WithEquityKeeps(b, a.user, a.currency);
    hide FindOpening, BookInv;
  }

  lemma SyncAgain(b: Book, a: Account, amount: int, date: int, p: NetWorthItem, i: nat)
    requires amount != 0 && (a.kind.Asset? || a.kind.Liability?) && (a.user, a.currency) in b.equity
    requires i < |b.txs| && FindOpening(b.txs, a.user, p, a.id, |b.txs|) == Some(i) && b.txs[i].date == date && b.txs[i].posted
    requires var equity := b.equity[(a.user, a.currency)]; UpdatedEntries(b.txs[i].entries, a, equity, amount) == b.txs[i].entries
    ensures SyncStep(b, a, amount, date, p) == (b, None)
  {
    hide FindOpening, UpdatedEntries;
    var tx := b.txs[i];
    assert tx.(date := date, posted := true, entries := tx.entries) == tx;
    assert b.txs[i := tx] == b.txs;
  }

  /** The balance of the account moves from the old opening to the new one, and no account other than the
      position and equity moves at all, at any date and status. */
  lemma SyncMovesBalance(b: Book, a: Account, amount: int, date: int, p: NetWorthItem, other: Account, asOf: Option<int>, posted: Option<bool>)
    requires BookInv(b) && Named(b, a) && (a.kind.Asset? || a.kind.Liability?) && Named(b, other) && !other.kind.Equity?
    ensures var after := SyncStep(b, a, amount, date, p).0;
            var found := FindOpening(b.txs, a.user, p, a.id, |b.txs|);
            var counted := Counts(Filter(a.user, asOf, posted), Tx(0, a.user, date, true, false, Some(p), []));
            var before := if found.Some? then Share(b.txs[found.value], a, asOf, posted) else 0;
            && (other == a ==>
                  Balance(after.txs, a, asOf, posted) == Balance(b.txs, a, asOf, posted) - before + if counted then amount else 0)
            && (other != a ==> Balance(after.txs, other, asOf, posted) == Balance(b.txs, other, asOf, posted))
  {
    var found := FindOpening(b.txs, a.user, p, a.id, |b.txs|);
    var after := SyncStep(b, a, amount, date, p).0;
    if found.Some? { OldOpeningSpares(b, a, p, found.value, other); }
    if amount == 0 {
      if found.Some? { RemovalMoves(b.txs, found.value, other, asOf, posted); }
      hide Balance, Share, FindOpening, BookInv, Moves, Without;
      if other != a { assert found.Some? ==> Share(b.txs[found.value], other, asOf, posted) == 0 by { ZeroShare(b, found, other, asOf, posted); } }
    } else {
      SyncOnto(b, a, amount, date, p, other, asOf, posted);
      if other != a && found.Some? { ZeroShare(b, found, other, asOf, posted); }
      hide Balance, Share, FindOpening, BookInv, Moves, SyncStep;
    }
  }

  lemma ZeroShare(b: Book, found: Option<nat>, other: Account, asOf: Option<int>, posted: Option<bool>)
    requires found.Some? ==> found.value < |b.txs| && Moves(b.txs[found.value].entries, other) == 0
    ensures found.Some? ==> Share(b.txs[found.value], other, asOf, posted) == 0
  {
  }

  /** An existing opening touches no account but its position and equity. */
  lemma OldOpeningSpares(b: Book, a: Account, p: NetWorthItem, i: nat, other: Account)
    requires BookInv(b) && Named(b, a) && !a.kind.Equity? && Named(b, other) && !other.kind.Equity? && i < |b.txs|
    requires Opens(b.txs[i], a.user, p, a.id)
    ensures other != a ==> Moves(b.txs[i].entries, other) == 0
  {
    assert OpeningOk(b.accounts, b.txs[i]);
    OpensFirst(b, i, a, p);
    var entries := b.txs[i].entries;
    SideOfTwo(entries, other.id, true);
    SideOfTwo(entries, other.id, false);
    hide EntrySum, LedgerOk;
  }

  /** Balances after writing a non-zero opening. */
  lemma SyncOnto(b: Book, a: Account, amount: int, date: int, p: NetWorthItem, other: Account, asOf: Option<int>, posted: Option<bool>)
    requires BookInv(b) && Named(b, a) && (a.kind.Asset? || a.kind.Liability?) && Named(b, other) && !other.kind.Equity? && amount != 0
    ensures var after := SyncStep(b, a, amount, date, p).0;
            var found := FindOpening(b.txs, a.user, p, a.id, |b.txs|);
            var counted := Counts(Filter(other.user, asOf, posted), Tx(0, a.user, date, true, false, Some(p), []));
            Balance(after.txs, other, asOf, posted)
            == Balance(b.txs, other, asOf, posted) - (if found.Some? then Share(b.txs[found.value], other, asOf, posted) else 0)
               + if counted && other == a then amount else 0
  {
    var found := FindOpening(b.txs, a.user, p, a.id, |b.txs|);
    WithEquityKeeps(b, a.user, a.currency);
    var e := WithEquity(b, a.user, a.currency);
    var equity := e.equity[(a.user, a.currency)];
    var entries := OpeningEntries(a, equity, amount);
    OpeningEntriesOk(e, a, equity, amount);
    OpeningMoves(a, equity, amount);
    assert other.id != equity by { assert e.accounts[equity].kind == Equity; }
    assert Moves(entries, other) == if other == a then amount else 0;
    if found.None? {
      PostingMoves(b.txs, Tx(e.nextTx, a.user, date, true, false, Some(p), entries), other, asOf, posted);
    } else {
      UpdatedIsFresh(e, found.value, a, equity, amount, p);
      UpdateMoves(b.txs, found.value, b.txs[found.value].(date := date, posted := true, entries := entries), other, asOf, posted);
    }
    hide Balance, Moves, FindOpening, BookInv, WithEquity, OpeningEntries, UpdatedEntries;
  }

  // ---- Transaction ids ----------------------------------------------------------------------------------------

  /** No two transactions share an id, and the next one is new. */
  ghost predicate IdsOk(b: Book) {
    && (forall i :: 0 <= i < |b.txs| ==> b.txs[i].id < b.nextTx)
    && forall i, j :: 0 <= i < j < |b.txs| ==> b.txs[i].id != b.txs[j].id
  }

  lemma ServeIds(b: Book, r: Request)
    requires IdsOk(b)
    ensures IdsOk(Serve(b, r)) && Serve(b, r).nextTx >= b.nextTx
  {
    hide Verdict, FindOpening, OpeningEntries, UpdatedEntries, Payload;
  }

  /** Ids stay unique, and are never used again, in every run of quick entries and synchronisations. */
  lemma {:induction false} ServedIds(b: Book, rs: seq<Request>, n: nat)
    requires IdsOk(b) && n <= |rs|
    ensures IdsOk(Served(b, rs, n)) && Served(b, rs, n).nextTx >= b.nextTx
  {
    hide Serve, IdsOk;
    if n > 0 {
      ServedIds(b, rs, n - 1);
      ServeIds(Served(b, rs, n - 1), rs[n - 1]);
    }
  }
}
