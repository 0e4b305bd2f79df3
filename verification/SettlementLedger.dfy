/** The executions and the double-entry ledger work on the same transactions: what an execution posts is an
    accepted quick transfer, and what is applied shows in the balances the ledger reports. */
module SettlementLedger {
  import opened Money
  import opened Wrappers
  import Execution
  import ExecutionRuns
  import MonthlyClose
  import Ledger
  import QuickEntry

  // ---- The same rows ------------------------------------------------------------------------------------------

  function AsPostings(entries: seq<Execution.Entry>, currency: string): (p: seq<Ledger.Posting>)
    ensures |p| == |entries|
  {
    seq(|entries|, i requires 0 <= i < |entries| => Ledger.Posting(entries[i].account, entries[i].debit, entries[i].amount, currency))
  }

  /** A settlement transaction as the ledger sees it, in the currency of the household. */
  function AsTx(tx: Execution.Tx, id: int, user: int, currency: string): Ledger.Tx {
    Ledger.Tx(id, user, tx.date, tx.posted, false, None, AsPostings(tx.entries, currency))
  }

  function AsLedger(ledger: seq<Execution.Tx>, user: int, currency: string): (txs: seq<Ledger.Tx>)
    ensures |txs| == |ledger|
  {
    seq(|ledger|, i requires 0 <= i < |ledger| => AsTx(ledger[i], i, user, currency))
  }

  /** The transfer an application posts from source to destination, and a reversal the other way. */
  function Transfer(source: Ledger.Account, destination: Ledger.Account, amount: int, date: int): QuickEntry.Quick {
    QuickEntry.Quick(QuickEntry.Transfer, QuickEntry.Inflow, amount, source, destination, None, None, None, None, None, date, date, true)
  }

  /** Between two accounts of the user in one currency the quick entry is accepted, and the transaction it
      writes is the posting of the execution step. */
  lemma PostsQuickTransfer(r: Execution.Rec, source: Ledger.Account, destination: Ledger.Account, amount: int, date: int,
                           link: Execution.Link, user: int, id: int)
    requires source.user == user && destination.user == user && |source.currency| == 3 && source.currency == destination.currency
    requires amount > 0
    ensures var q := Transfer(source, destination, amount, date);
            && QuickEntry.Verdict(q, user).Ok?
            && QuickEntry.TxOf(q, user, id, QuickEntry.Verdict(q, user).value)
               == AsTx(Execution.Posting(date, r, source.id, destination.id, amount, link), id, user, source.currency)
  {
    var q := Transfer(source, destination, amount, date);
    QuickEntry.AcceptedIff(q, user);
    QuickEntry.VerdictIsPayload(q, user);
    hide QuickEntry.Verdict;
  }

  // ---- Balances ---------------------------------------------------------------------------------------------------

  lemma {:induction false} SameSides(entries: seq<Execution.Entry>, currency: string, account: int, debit: bool, n: nat)
    requires n <= |entries|
    ensures Ledger.EntrySum(AsPostings(entries, currency), account, debit, n) == Execution.SideTotal(entries, account, debit, n)
  {
    if n > 0 { SameSides(entries, currency, account, debit, n - 1); }
  }

  /** What the posted transactions move on an account. */
  function PostedImpact(ledger: seq<Execution.Tx>, account: int, n: nat): int
    requires n <= |ledger|
  {
    if n == 0 then 0 else
    PostedImpact(ledger, account, n - 1) + if ledger[n - 1].posted then ExecutionRuns.Impact(ledger[n - 1], account) else 0
  }

  lemma {:induction false} SidesArePosted(ledger: seq<Execution.Tx>, user: int, currency: string, account: int, n: nat)
    requires n <= |ledger|
    ensures var txs, f := AsLedger(ledger, user, currency), Ledger.Filter(user, None, Some(true));
            Ledger.SideTotal(txs, f, account, true, n) - Ledger.SideTotal(txs, f, account, false, n) == PostedImpact(ledger, account, n)
  {
    if n > 0 {
      SidesArePosted(ledger, user, currency, account, n - 1);
      var tx := ledger[n - 1];
      SameSides(tx.entries, currency, account, true, |tx.entries|);
      SameSides(tx.entries, currency, account, false, |tx.entries|);
      hide Ledger.EntrySum, Execution.SideTotal, AsPostings;
    }
  }

  /** The posted balance the ledger reports of an asset account. */
  function PostedBalance(ledger: seq<Execution.Tx>, a: Ledger.Account): int {
    Ledger.Balance(AsLedger(ledger, a.user, a.currency), a, None, Some(true))
  }

  /** The ledger as it would be without the transactions linked to a recommendation. */
  function Without(ledger: seq<Execution.Tx>, rec: int): (rest: seq<Execution.Tx>)
    ensures |rest| == |ledger|
  {
    seq(|ledger|, i requires 0 <= i < |ledger| =>
      if ledger[i].link.Some? && ledger[i].link.value.rec == rec then ledger[i].(entries := []) else ledger[i])
  }

  lemma {:induction false} LinkedApart(ledger: seq<Execution.Tx>, rec: int, account: int, n: nat)
    requires n <= |ledger|
    requires forall i :: 0 <= i < |ledger| && ledger[i].link.Some? ==> ledger[i].posted
    ensures PostedImpact(ledger, account, n)
            == PostedImpact(Without(ledger, rec), account, n) + ExecutionRuns.LinkedImpact(ledger, rec, account, n)
  {
    if n > 0 {
      LinkedApart(ledger, rec, account, n - 1);
      var tx := ledger[n - 1];
      if tx.link.Some? && tx.link.value.rec == rec {
        assert Without(ledger, rec)[n - 1].entries == [];
        assert ExecutionRuns.Impact(Without(ledger, rec)[n - 1], account) == 0;
      }
      hide ExecutionRuns.Impact;
    }
  }

  lemma PostedBalanceSplits(d: Execution.Desk, rec: int, a: Ledger.Account)
    requires Execution.Inv(d) && a.kind.Asset?
    ensures PostedBalance(d.ledger, a)
            == PostedBalance(Without(d.ledger, rec), a) + ExecutionRuns.LinkedImpact(d.ledger, rec, a.id, |d.ledger|)
  {
    forall i | 0 <= i < |d.ledger| && d.ledger[i].link.Some? ensures d.ledger[i].posted {
      assert Execution.LinkOk(d.recs, d.ledger[i]);
    }
    LinkedApart(d.ledger, rec, a.id, |d.ledger|);
    SidesArePosted(d.ledger, a.user, a.currency, a.id, |d.ledger|);
    SidesArePosted(Without(d.ledger, rec), a.user, a.currency, a.id, |d.ledger|);
    hide Execution.Inv, PostedImpact, Ledger.SideTotal, ExecutionRuns.LinkedImpact;
  }

  /** At any point of any run of the office the reported balance of the source account is lower, and that of
      the destination higher, by exactly the applied amount than without the transactions linked to the
      recommendation, when those are plain transfers. */
  lemma AppliedShowsInBalances(o: MonthlyClose.Office, qs: seq<MonthlyClose.Request>, n: nat, rec: int, a: Ledger.Account)
    requires MonthlyClose.Blank(o) && n <= |qs| && forall i :: 0 <= i < |qs| ==> MonthlyClose.GoodRequest(qs[i])
    requires var now := MonthlyClose.Served(o, qs, n);
             rec in now.recs && ExecutionRuns.PlainlyLinked(now.ledger, rec) && a.kind.Asset?
    ensures var now := MonthlyClose.Served(o, qs, n);
            var r := now.recs[rec];
            && (a.id == r.from ==> PostedBalance(now.ledger, a) == PostedBalance(Without(now.ledger, rec), a) - r.applied)
            && (a.id == r.to ==> PostedBalance(now.ledger, a) == PostedBalance(Without(now.ledger, rec), a) + r.applied)
  {
    MonthlyClose.ServedKeeps(o, qs, n);
    var now := MonthlyClose.Served(o, qs, n);
    hide MonthlyClose.Served, MonthlyClose.Blank, MonthlyClose.GoodRequest, Execution.Inv, ExecutionRuns.LinkedImpact,
         ExecutionRuns.PlainlyLinked, PostedBalance, Without, MonthlyClose.MonthsOk, MonthlyClose.RecsOk;
    ExecutionRuns.AppliedIsMovedAt(MonthlyClose.DeskOf(now), rec);
    PostedBalanceSplits(MonthlyClose.DeskOf(now), rec, a);
  }
}
