/** The ledger rows as the program writes them: quick entries created, openings rewritten in place. */
module LedgerBook {
  import opened Wrappers
  import opened Money
  import opened Ledger
  import opened QuickEntry
  import opened OpeningBalance

  class Books {
    var accounts: map<int, Account>
    var equity: map<(int, string), int>
    var nextAccount: int
    var txs: seq<Tx>
    var nextTx: int

    function State(): Book
      reads this
    {
      Book(accounts, equity, nextAccount, txs, nextTx)
    }

    constructor (b: Book)
      ensures State() == b
    {
      accounts, equity, nextAccount, txs, nextTx := b.accounts, b.equity, b.nextAccount, b.txs, b.nextTx;
    }

    /** The posting part of `create_quick_transaction`: build, validate, then write row by row. */
    method CreateQuickTransaction(q: Quick, user: int) returns (refusal: Option<Refusal>)
      modifies this`txs, this`nextTx
      ensures (State(), refusal) == QuickStep(old(State()), q, user)
    {
      hide Check, Payload;
      var payload := Payload(q);
      if payload.Err? { return Some(payload.error); }
      if q.value < q.booking { return Some(ValueBeforeBooking); }
      var lines := payload.value;
      var problem := ValidateEntries(lines, user, Exchanges(q));
      if problem.Some? { return Some(Invalid(problem.value)); }
      var entries: seq<Posting> := [];
      for i := 0 to |lines|
        invariant entries == Postings(lines)[..i]
      {
        entries := entries + [Posting(lines[i].account.id, lines[i].debit, lines[i].amount, lines[i].currency)];
      }
      assert entries == Postings(lines);
      txs := txs + [Tx(nextTx, user, q.booking, q.posted, Exchanges(q), None, entries)];
      nextTx := nextTx + 1;
      return None;
    }

    /** `get_or_create_system_equity_account`. */
    method EquityAccount(user: int, currency: string) returns (id: int)
      modifies this`accounts, this`equity, this`nextAccount
      ensures State() == WithEquity(old(State()), user, currency)
      ensures (user, currency) in equity && id == equity[(user, currency)]
    {
      if (user, currency) !in equity {
        accounts := accounts[nextAccount := Account(nextAccount, user, Equity, currency)];
        equity := equity[(user, currency) := nextAccount];
        nextAccount := nextAccount + 1;
      }
      return equity[(user, currency)];
    }

    /** `sync_net_worth_opening_balance_transaction`. */
    method SyncOpening(a: Account, amount: int, date: int, p: NetWorthItem) returns (error: Option<SyncError>)
      modifies this
      ensures (State(), error) == SyncStep(old(State()), a, amount, date, p)
    {
      var found := FindOpening(txs, a.user, p, a.id, |txs|);
      hide FindOpening;
      if amount == 0 {
        if found.Some? { txs := txs[..found.value] + txs[found.value + 1..]; }
        return None;
      }
      if !a.kind.Asset? && !a.kind.Liability? { return Some(NotAPosition); }
      var other := EquityAccount(a.user, a.currency);
      hide WithEquity;
      if found.None? {
        txs := txs + [Tx(nextTx, a.user, date, true, false, Some(p), OpeningEntries(a, other, amount))];
        nextTx := nextTx + 1;
        return None;
      }
      var i := found.value;
      var entries := RewriteEntries(txs[i].entries, a, other, amount);
      txs := txs[i := txs[i].(date := date, posted := true, entries := entries)];
      return None;
    }

    /** Corrects the position and equity entries in place, or writes both again when one is missing. */
    static method RewriteEntries(entries: seq<Posting>, a: Account, equity: int, amount: int) returns (after: seq<Posting>)
      ensures after == UpdatedEntries(entries, a, equity, amount)
    {
      var positionDebits := OpeningDebits(a.kind, amount);
      var own := LastOn(entries, a.id);
      var other := LastOn(entries, equity);
      if own.None? || other.None? {
        return [Posting(a.id, positionDebits, Abs(amount), a.currency), Posting(equity, !positionDebits, Abs(amount), a.currency)];
      }
      after := entries;
      after := after[own.value := Posting(a.id, positionDebits, Abs(amount), a.currency)];
      after := after[other.value := Posting(equity, !positionDebits, Abs(amount), a.currency)];
    }

    /** Indexing the entries by account keeps the last one of each. */
    static method LastOn(entries: seq<Posting>, account: int) returns (last: Option<nat>)
      ensures last == EntryOf(entries, account, |entries|)
      ensures last.Some? ==> last.value < |entries|
    {
      last := None;
      for i := 0 to |entries|
        invariant last == EntryOf(entries, account, i)
      {
        if entries[i].account == account { last := Some(i); }
      }
    }
  }
}
