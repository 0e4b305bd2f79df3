/** The double-entry ledger: accounts, transactions, balances as of a date (`services_ledger.py`) and the
    validation every transaction passes (`services_transactions.py`). */
module Ledger {
  import opened Wrappers
  import opened FiniteSums

  datatype AccountType = Asset | Liability | Equity | Income | Expense

  datatype Account = Account(id: int, user: int, kind: AccountType, currency: string)

  /** An entry to be written, with the account it names. */
  datatype Line = Line(account: Account, debit: bool, amount: int, currency: string)

  datatype Posting = Posting(account: int, debit: bool, amount: int, currency: string)

  /** What an opening-balance transaction opens. */
  datatype NetWorthItem = AssetItem(id: int) | LiabilityItem(id: int)

  /** `exchange` marks a transfer or investment between currencies, `opening` a system opening balance. */
  datatype Tx = Tx(id: int, user: int, date: int, posted: bool, exchange: bool, opening: Option<NetWorthItem>, entries: seq<Posting>)

  // ---- Validation -----------------------------------------------------------------------------------------

  datatype Fault = ForeignAccount | BadCurrency | OtherCurrency | NotPositive

  datatype Problem = TooFew | AtLine(index: nat, fault: Fault) | Unbalanced

  function LineFault(line: Line, user: int): Option<Fault> {
    if line.account.user != user then Some(ForeignAccount)
    else if |line.currency| != 3 then Some(BadCurrency)
    else if line.currency != line.account.currency then Some(OtherCurrency)
    else if line.amount <= 0 then Some(NotPositive)
    else None
  }

  /** Debits or credits in a currency among the first n lines. */
  function LineSum(lines: seq<Line>, currency: string, debit: bool, n: nat): int
    requires n <= |lines|
  {
    if n == 0 then 0 else
    LineSum(lines, currency, debit, n - 1)
    + if lines[n - 1].currency == currency && lines[n - 1].debit == debit then lines[n - 1].amount else 0
  }

  ghost predicate LinesBalance(lines: seq<Line>) {
    forall c :: LineSum(lines, c, true, |lines|) == LineSum(lines, c, false, |lines|)
  }

  /** The first faulty line among the first n. */
  function FirstFault(lines: seq<Line>, user: int, n: nat): Option<Problem>
    requires n <= |lines|
  {
    if n == 0 then None else
    var before := FirstFault(lines, user, n - 1);
    if before.Some? then before
    else if LineFault(lines[n - 1], user).Some? then Some(AtLine(n - 1, LineFault(lines[n - 1], user).value))
    else None
  }

  /** What validation says of a list of entries. */
  ghost function Check(lines: seq<Line>, user: int, allowUnbalanced: bool): Option<Problem> {
    if |lines| < 2 then Some(TooFew)
    else if FirstFault(lines, user, |lines|).Some? then FirstFault(lines, user, |lines|)
    else if !allowUnbalanced && !LinesBalance(lines) then Some(Unbalanced)
    else None
  }

  lemma {:induction false} FaultStays(lines: seq<Line>, user: int, i: nat, n: nat)
    requires i <= n <= |lines| && FirstFault(lines, user, i).Some?
    ensures FirstFault(lines, user, n) == FirstFault(lines, user, i)
  {
    if i < n { FaultStays(lines, user, i, n - 1); }
  }

  /** Entries pass exactly when there are two or more, each names an account of the user in that account's
      three-letter currency with a positive amount, and every currency balances unless that is waived. */
  lemma {:induction false} NoFault(lines: seq<Line>, user: int, n: nat)
    requires n <= |lines|
    ensures FirstFault(lines, user, n).None?
            <==> forall i :: 0 <= i < n ==>
                   var l := lines[i];
                   l.account.user == user && |l.currency| == 3 && l.currency == l.account.currency && l.amount > 0
  {
    if n > 0 { NoFault(lines, user, n - 1); }
  }

  /** The entry names an account of the user in that account's three-letter currency with a positive amount. */
  predicate Sound(l: Line, user: int) {
    l.account.user == user && |l.currency| == 3 && l.currency == l.account.currency && l.amount > 0
  }

  /** What is reported is the first entry that does not, and the first thing wrong with it: the owner, the code, the
      currency of the account, the amount. */
  lemma {:induction false} FirstFaultIs(lines: seq<Line>, user: int, n: nat)
    requires n <= |lines|
    ensures var p := FirstFault(lines, user, n);
            p.Some? ==>
              && p.value.AtLine? && p.value.index < n && (forall j :: 0 <= j < p.value.index ==> Sound(lines[j], user))
              && var l := lines[p.value.index];
                 match p.value.fault
                 case ForeignAccount => l.account.user != user
                 case BadCurrency => l.account.user == user && |l.currency| != 3
                 case OtherCurrency => l.account.user == user && |l.currency| == 3 && l.currency != l.account.currency
                 case NotPositive => l.account.user == user && |l.currency| == 3 && l.currency == l.account.currency && l.amount <= 0
  {
    if n > 0 {
      FirstFaultIs(lines, user, n - 1);
      NoFault(lines, user, n - 1);
    }
  }

  function TotalsOf(totals: map<string, (int, int)>, c: string): (int, int) { if c in totals then totals[c] else (0, 0) }

  /** Accumulates debits and credits per currency in a dictionary, then compares them. */
  method ValidateEntries(lines: seq<Line>, user: int, allowUnbalanced: bool) returns (problem: Option<Problem>)
    ensures problem == Check(lines, user, allowUnbalanced)
  {
    if |lines| < 2 { return Some(TooFew); }
    var totals: map<string, (int, int)> := map[];
    for i := 0 to |lines|
      invariant FirstFault(lines, user, i).None?
      invariant forall c :: TotalsOf(totals, c) == (LineSum(lines, c, true, i), LineSum(lines, c, false, i))
    {
      var line := lines[i];
      var fault := LineFault(line, user);
      if fault.Some? {
        FaultStays(lines, user, i + 1, |lines|);
        return Some(AtLine(i, fault.value));
      }
      hide LineFault;
      var (debit, credit) := TotalsOf(totals, line.currency);
      totals := totals[line.currency := if line.debit then (debit + line.amount, credit) else (debit, credit + line.amount)];
    }
    hide LineFault, LineSum, FirstFault;
    if allowUnbalanced { return None; }
    var balanced := AllBalanced(totals);
    assert balanced <==> LinesBalance(lines) by {
      assert forall c :: TotalsOf(totals, c).0 == LineSum(lines, c, true, |lines|) && TotalsOf(totals, c).1 == LineSum(lines, c, false, |lines|);
    }
    return if balanced then None else Some(Unbalanced);
  }

  method AllBalanced(totals: map<string, (int, int)>) returns (balanced: bool)
    ensures balanced <==> forall c :: TotalsOf(totals, c).0 == TotalsOf(totals, c).1
  {
    var left := totals.Keys;
    while left != {}
      invariant left <= totals.Keys
      invariant forall c :: c in totals && c !in left ==> totals[c].0 == totals[c].1
      decreases |left|
    {
      var c :| c in left;
      if totals[c].0 != totals[c].1 {
        assert TotalsOf(totals, c).0 != TotalsOf(totals, c).1;
        return false;
      }
      left := left - {c};
    }
    return true;
  }

  // ---- Balances -------------------------------------------------------------------------------------------

  /** Which transactions count: those of a user, up to a date, with a status. */
  datatype Filter = Filter(user: int, asOf: Option<int>, posted: Option<bool>)

  predicate Counts(f: Filter, tx: Tx) {
    tx.user == f.user && (f.asOf.Some? ==> tx.date <= f.asOf.value) && (f.posted.Some? ==> tx.posted == f.posted.value)
  }

  function OnSide(p: Posting, account: int, debit: bool): int { if p.account == account && p.debit == debit then p.amount else 0 }

  function EntrySum(entries: seq<Posting>, account: int, debit: bool, n: nat): int
    requires n <= |entries|
  {
    if n == 0 then 0 else EntrySum(entries, account, debit, n - 1) + OnSide(entries[n - 1], account, debit)
  }

  function Counted(f: Filter, tx: Tx, account: int, debit: bool): int {
    if Counts(f, tx) then EntrySum(tx.entries, account, debit, |tx.entries|) else 0
  }

  function SideTotal(txs: seq<Tx>, f: Filter, account: int, debit: bool, n: nat): int
    requires n <= |txs|
  {
    if n == 0 then 0 else SideTotal(txs, f, account, debit, n - 1) + Counted(f, txs[n - 1], account, debit)
  }

  predicate DebitIncreases(kind: AccountType) { kind.Asset? || kind.Expense? }

  /** `compute_account_balance_from_totals`. */
  function Signed(kind: AccountType, debit: int, credit: int): int { if DebitIncreases(kind) then debit - credit else credit - debit }

  /** The balance of an account, from first principles: every counted entry of every transaction. */
  function Balance(txs: seq<Tx>, a: Account, asOf: Option<int>, posted: Option<bool>): int {
    var f := Filter(a.user, asOf, posted);
    Signed(a.kind, SideTotal(txs, f, a.id, true, |txs|), SideTotal(txs, f, a.id, false, |txs|))
  }

  /** `get_account_balance`: scans the account's entries. */
  method GetAccountBalance(txs: seq<Tx>, a: Account, asOf: Option<int>, posted: Option<bool>) returns (balance: int)
    ensures balance == Balance(txs, a, asOf, posted)
  {
    var debit, credit := 0, 0;
    for i := 0 to |txs|
      invariant debit == SideTotal(txs, Filter(a.user, asOf, posted), a.id, true, i)
      invariant credit == SideTotal(txs, Filter(a.user, asOf, posted), a.id, false, i)
    {
      if Counts(Filter(a.user, asOf, posted), txs[i]) {
        var d, c := ComputeEntryTotals(txs[i].entries, Some(a.id));
        debit, credit := debit + d, credit + c;
      }
    }
    return Signed(a.kind, debit, credit);
  }

  function AllSide(entries: seq<Posting>, only: Option<int>, debit: bool, n: nat): int
    requires n <= |entries|
  {
    if n == 0 then 0 else
    AllSide(entries, only, debit, n - 1)
    + if entries[n - 1].debit == debit && (only.Some? ==> entries[n - 1].account == only.value) then entries[n - 1].amount else 0
  }

  lemma {:induction false} AllSideOfOne(entries: seq<Posting>, account: int, debit: bool, n: nat)
    requires n <= |entries|
    ensures AllSide(entries, Some(account), debit, n) == EntrySum(entries, account, debit, n)
  {
    if n > 0 { AllSideOfOne(entries, account, debit, n - 1); }
  }

  /** `compute_entry_balance_totals`. */
  method ComputeEntryTotals(entries: seq<Posting>, only: Option<int>) returns (debit: int, credit: int)
    ensures debit == AllSide(entries, only, true, |entries|) && credit == AllSide(entries, only, false, |entries|)
    ensures only.Some? ==> debit == EntrySum(entries, only.value, true, |entries|) && credit == EntrySum(entries, only.value, false, |entries|)
  {
    debit, credit := 0, 0;
    for i := 0 to |entries|
      invariant debit == AllSide(entries, only, true, i) && credit == AllSide(entries, only, false, i)
    {
      var e := entries[i];
      if only.Some? && e.account != only.value { continue; }
      if e.debit { debit := debit + e.amount; } else { credit := credit + e.amount; }
    }
    if only.Some? {
      AllSideOfOne(entries, only.value, true, |entries|);
      AllSideOfOne(entries, only.value, false, |entries|);
    }
  }

  /** `get_account_balances_bulk`: one pass over the ledger groups the sums of all accounts at once. */
  method GetAccountBalancesBulk(txs: seq<Tx>, user: int, accounts: seq<Account>, posted: Option<bool>) returns (balances: map<int, int>)
    requires forall i, j :: 0 <= i < j < |accounts| ==> accounts[i].id != accounts[j].id
    ensures forall id :: id in balances <==> exists i :: 0 <= i < |accounts| && accounts[i].id == id && accounts[i].user == user
    ensures forall i :: 0 <= i < |accounts| && accounts[i].id in balances ==> balances[accounts[i].id] == Balance(txs, accounts[i], None, posted)
  {
    balances := map[];
    var debits, credits := GroupBySide(txs, Filter(user, None, posted), set i | 0 <= i < |accounts| :: accounts[i].id);
    for i := 0 to |accounts|
      invariant forall id :: id in balances <==> exists j :: 0 <= j < i && accounts[j].id == id && accounts[j].user == user
      invariant forall j :: 0 <= j < i && accounts[j].id in balances ==> balances[accounts[j].id] == Balance(txs, accounts[j], None, posted)
    {
      var a := accounts[i];
      hide SideTotal, Signed;
      if a.user == user {
        assert Get(debits, a.id) == SideTotal(txs, Filter(user, None, posted), a.id, true, |txs|);
        assert Get(credits, a.id) == SideTotal(txs, Filter(user, None, posted), a.id, false, |txs|);
        balances := balances[a.id := Signed(a.kind, Get(debits, a.id), Get(credits, a.id))];
      }
    }
  }

  method GroupBySide(txs: seq<Tx>, f: Filter, ids: set<int>) returns (debits: map<int, int>, credits: map<int, int>)
    ensures forall a :: a in ids ==> Get(debits, a) == SideTotal(txs, f, a, true, |txs|)
    ensures forall a :: a in ids ==> Get(credits, a) == SideTotal(txs, f, a, false, |txs|)
  {
    debits, credits := map[], map[];
    for i := 0 to |txs|
      invariant forall a :: a in ids ==> Get(debits, a) == SideTotal(txs, f, a, true, i)
      invariant forall a :: a in ids ==> Get(credits, a) == SideTotal(txs, f, a, false, i)
    {
      if Counts(f, txs[i]) {
        debits, credits := GroupEntries(txs[i].entries, ids, debits, credits);
      }
    }
  }

  method GroupEntries(entries: seq<Posting>, ids: set<int>, debitsIn: map<int, int>, creditsIn: map<int, int>)
    returns (debits: map<int, int>, credits: map<int, int>)
    ensures forall a :: a in ids ==> Get(debits, a) == Get(debitsIn, a) + EntrySum(entries, a, true, |entries|)
    ensures forall a :: a in ids ==> Get(credits, a) == Get(creditsIn, a) + EntrySum(entries, a, false, |entries|)
  {
    debits, credits := debitsIn, creditsIn;
    for i := 0 to |entries|
      invariant forall a :: a in ids ==> Get(debits, a) == Get(debitsIn, a) + EntrySum(entries, a, true, i)
      invariant forall a :: a in ids ==> Get(credits, a) == Get(creditsIn, a) + EntrySum(entries, a, false, i)
    {
      var e := entries[i];
      if e.account in ids {
        if e.debit { debits := Plus(debits, e.account, e.amount); } else { credits := Plus(credits, e.account, e.amount); }
      }
    }
  }

  // ---- The accounting equation ------------------------------------------------------------------------------

  /** Debits minus credits of an account. */
  function Net(txs: seq<Tx>, f: Filter, account: int, n: nat): int
    requires n <= |txs|
  {
    SideTotal(txs, f, account, true, n) - SideTotal(txs, f, account, false, n)
  }

  function NetIn(entries: seq<Posting>, account: int, n: nat): int
    requires n <= |entries|
  {
    EntrySum(entries, account, true, n) - EntrySum(entries, account, false, n)
  }

  /** Debits minus credits of a transaction in a currency. */
  function Gap(entries: seq<Posting>, currency: string, n: nat): int
    requires n <= |entries|
  {
    if n == 0 then 0 else
    var p := entries[n - 1];
    Gap(entries, currency, n - 1) + if p.currency != currency then 0 else if p.debit then p.amount else -p.amount
  }

  /** The entries of exchanges: the only ones that may leave a currency unbalanced. */
  function ExchangeGap(txs: seq<Tx>, f: Filter, currency: string, n: nat): int
    requires n <= |txs|
  {
    if n == 0 then 0 else
    var tx := txs[n - 1];
    ExchangeGap(txs, f, currency, n - 1) + if tx.exchange && Counts(f, tx) then Gap(tx.entries, currency, |tx.entries|) else 0
  }

  /** Entries name accounts of the book in the account's currency, and balance unless they exchange. */
  ghost predicate TxOk(accounts: map<int, Account>, tx: Tx) {
    && (forall i :: 0 <= i < |tx.entries| ==>
          tx.entries[i].account in accounts && accounts[tx.entries[i].account].currency == tx.entries[i].currency && tx.entries[i].amount > 0)
    && (!tx.exchange ==> forall c :: Gap(tx.entries, c, |tx.entries|) == 0)
  }

  ghost predicate LedgerOk(accounts: map<int, Account>, txs: seq<Tx>) { forall i :: 0 <= i < |txs| ==> TxOk(accounts, txs[i]) }

  function InCurrency(accounts: map<int, Account>, currency: string): set<int> {
    set id | id in accounts && accounts[id].currency == currency
  }

  ghost function EntryNets(entries: seq<Posting>, ids: set<int>, n: nat): map<int, int>
    requires n <= |entries|
  {
    map a | a in ids :: NetIn(entries, a, n)
  }

  ghost function Nets(txs: seq<Tx>, f: Filter, ids: set<int>, n: nat): map<int, int>
    requires n <= |txs|
  {
    map a | a in ids :: Net(txs, f, a, n)
  }

  lemma {:induction false} EntryNetsTotal(accounts: map<int, Account>, tx: Tx, currency: string, n: nat)
    requires TxOk(accounts, tx) && n <= |tx.entries|
    ensures Total(EntryNets(tx.entries, InCurrency(accounts, currency), n)) == Gap(tx.entries, currency, n)
  {
    var ids := InCurrency(accounts, currency);
    if n == 0 {
      ZeroTotal(EntryNets(tx.entries, ids, 0));
    } else {
      EntryNetsTotal(accounts, tx, currency, n - 1);
      var p := tx.entries[n - 1];
      var before := EntryNets(tx.entries, ids, n - 1);
      var d := if p.debit then p.amount else -p.amount;
      assert p.account in ids <==> p.currency == currency;
      hide EntrySum, Gap;
      EntryNetsStep(tx.entries, ids, n);
      if p.account in ids { TotalPlus(before, p.account, d); }
      GapStep(tx.entries, currency, n);
    }
  }

  lemma GapStep(entries: seq<Posting>, currency: string, n: nat)
    requires 0 < n <= |entries|
    ensures var p := entries[n - 1];
            Gap(entries, currency, n)
            == Gap(entries, currency, n - 1) + if p.currency != currency then 0 else if p.debit then p.amount else -p.amount
  {
  }

  lemma EntryNetsStep(entries: seq<Posting>, ids: set<int>, n: nat)
    requires 0 < n <= |entries|
    ensures var p := entries[n - 1];
            var before := EntryNets(entries, ids, n - 1);
            EntryNets(entries, ids, n)
            == if p.account in ids then Plus(before, p.account, if p.debit then p.amount else -p.amount) else before
  {
  }

  /** Trial balance: over all accounts of a currency, debits less credits are exactly what exchanges between
      currencies leave open, at every date and status. */
  lemma {:induction false} TrialBalance(accounts: map<int, Account>, txs: seq<Tx>, f: Filter, currency: string, n: nat)
    requires LedgerOk(accounts, txs) && n <= |txs|
    ensures Total(Nets(txs, f, InCurrency(accounts, currency), n)) == ExchangeGap(txs, f, currency, n)
  {
    var ids := InCurrency(accounts, currency);
    if n == 0 {
      ZeroTotal(Nets(txs, f, ids, 0));
    } else {
      TrialBalance(accounts, txs, f, currency, n - 1);
      var tx := txs[n - 1];
      assert TxOk(accounts, tx);
      if Counts(f, tx) {
        EntryNetsTotal(accounts, tx, currency, |tx.entries|);
        NetsStep(txs, f, ids, n);
        TotalAdds(Nets(txs, f, ids, n - 1), EntryNets(tx.entries, ids, |tx.entries|), Nets(txs, f, ids, n));
        hide Nets, EntryNets, TxOk;
      } else {
        assert Nets(txs, f, ids, n) == Nets(txs, f, ids, n - 1);
      }
    }
  }

  lemma NetsStep(txs: seq<Tx>, f: Filter, ids: set<int>, n: nat)
    requires 0 < n <= |txs| && Counts(f, txs[n - 1])
    ensures var before := Nets(txs, f, ids, n - 1);
            var added := EntryNets(txs[n - 1].entries, ids, |txs[n - 1].entries|);
            forall k :: Get(Nets(txs, f, ids, n), k) == Get(before, k) + Get(added, k)
  {
    hide EntrySum;
  }

  /** Balances of the accounts of a currency whose debits do, or do not, increase them. */
  ghost function BalancesOf(accounts: map<int, Account>, txs: seq<Tx>, f: Filter, currency: string, debit: bool): map<int, int> {
    map a | a in InCurrency(accounts, currency) && DebitIncreases(accounts[a].kind) == debit ::
      Signed(accounts[a].kind, SideTotal(txs, f, a, true, |txs|), SideTotal(txs, f, a, false, |txs|))
  }

  /** The accounting equation: in every currency the balances of asset and expense accounts add up to those
      of liability, equity and income accounts, plus whatever exchanges between currencies left open. */
  lemma AccountingEquation(accounts: map<int, Account>, txs: seq<Tx>, f: Filter, currency: string)
    requires LedgerOk(accounts, txs)
    ensures Total(BalancesOf(accounts, txs, f, currency, true))
            == Total(BalancesOf(accounts, txs, f, currency, false)) + ExchangeGap(txs, f, currency, |txs|)
  {
    TrialBalance(accounts, txs, f, currency, |txs|);
    hide LedgerOk, ExchangeGap, SideTotal;
    var plus, minus := BalancesOf(accounts, txs, f, currency, true), BalancesOf(accounts, txs, f, currency, false);
    var all := Nets(txs, f, InCurrency(accounts, currency), |txs|);
    TotalAdds(all, minus, plus);
  }
}
