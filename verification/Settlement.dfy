/** A month end to end (`compute_monthly_close_settlement`): from the opening position over the movement fold,
    the reserves and the targets to the transfers, and what the household mismatch blocker decides. */
module Settlement {
  import opened Money
  import opened Wrappers
  import opened FiniteSums
  import opened Allocation
  import opened Positions
  import opened Routing
  import opened TransferPlan
  import opened Targets
  import Movements
  import MovementLaws
  import DirectFund
  import Reserves

  // ---- The fold stays in cents, on the participants ------------------------------------------------------

  /** Positions on participating accounts, and positions and economic totals in cents. */
  ghost predicate Grounded(b: Movements.Books, accounts: seq<Account>) {
    CentPosition(b.members) && CentMap(b.totals) && Within(b.members, accounts)
  }

  ghost predicate Mapped(c: Movements.Config, accounts: seq<Account>) {
    forall e :: e in c.participants ==> IsAccount(accounts, c.participants[e])
  }

  lemma {:induction false} MembersGrounded(c: Movements.Config, tx: Movements.Tx, p: Position, accounts: seq<Account>, n: nat)
    requires Movements.ValidConfig(c) && Mapped(c, accounts) && n <= |tx.entries|
    requires CentPosition(p) && Within(p, accounts)
    ensures CentPosition(Movements.MembersAfter(c, tx, p, n)) && Within(Movements.MembersAfter(c, tx, p, n), accounts)
  {
    if n > 0 {
      MembersGrounded(c, tx, p, accounts, n - 1);
      var leg := Movements.LegOf(c, tx, tx.entries[n - 1]);
      if leg.Split? {
        Movements.SplitLeg(c, tx, tx.entries[n - 1]);
        Reserves.AddSharesKeys(Movements.MembersAfter(c, tx, p, n - 1), leg.account, leg.shares, |leg.shares|);
        assert IsAccount(accounts, leg.account);
      }
      hide Movements.LegOf, AddShares, AllCents, CentPosition, IsAccount;
    }
  }

  lemma CreditInCents(t: map<int, int>, members: set<int>, s: seq<Share>)
    requires CentMap(t) && AllCents(s) && Movements.MembersOf(s) <= members
    ensures CentMap(Movements.Credit(t, members, s))
  {
    var after := Movements.Credit(t, members, s);
    forall m | m in after ensures IsCents(after[m]) {
      Movements.CreditGet(t, members, s, m);
      Movements.ShareOfCents(s, m, |s|);
      assert IsCents(0);
      CentsAdd(Get(t, m), ShareOf(s, m));
    }
  }

  lemma StepGrounded(c: Movements.Config, b: Movements.Books, tx: Movements.Tx, accounts: seq<Account>)
    requires Movements.ValidConfig(c) && Mapped(c, accounts) && Grounded(b, accounts)
    ensures Grounded(Movements.Step(c, b, tx), accounts)
  {
    Movements.StepMembers(c, b, tx);
    Movements.StepCredits(c, b, tx);
    MembersGrounded(c, tx, b.members, accounts, |tx.entries|);
    hide Movements.Step, Movements.OutcomeOf, Movements.MembersAfter, Movements.SplitAfter, Movements.EconomicDelta, Movements.Credit,
         Allocated, Movements.MembersOf, Mapped, CentPosition, CentMap, Within;
    if Movements.OutcomeOf(c, tx).Economic? {
      var s := Allocated(Movements.EconomicDelta(c, tx), Movements.OutcomeOf(c, tx).vector, CENT);
      Movements.EconomicCents(c, tx);
      AllocatedCents(Movements.EconomicDelta(c, tx), Movements.OutcomeOf(c, tx).vector);
      CreditInCents(b.totals, Movements.MembersOf(s) + Movements.SplitAfter(c, tx, |tx.entries|).Keys, s);
    }
  }

  lemma {:induction false} FoldGrounded(c: Movements.Config, b: Movements.Books, txs: seq<Movements.Tx>, accounts: seq<Account>, n: nat)
    requires Movements.ValidConfig(c) && Mapped(c, accounts) && Grounded(b, accounts) && n <= |txs|
    ensures Grounded(Movements.Fold(c, b, txs, n), accounts)
  {
    if n > 0 {
      hide Grounded, Mapped, Movements.Step;
      FoldGrounded(c, b, txs, accounts, n - 1);
      StepGrounded(c, Movements.Fold(c, b, txs, n - 1), txs[n - 1], accounts);
    }
  }

  // ---- Balances in cents are enough for the totals --------------------------------------------------------------

  ghost predicate BalancesInCents(p: Position, accounts: seq<Account>) {
    forall i :: 0 <= i < |accounts| ==> IsCents(AccountTotal(p, accounts[i].id))
  }

  /** Balances of accounts in cents, however their members share them. */
  ghost predicate Sound(b: Movements.Books, accounts: seq<Account>) {
    Within(b.members, accounts) && BalancesInCents(b.members, accounts) && IsCents(Total(b.totals))
  }

  lemma GroundedIsSound(b: Movements.Books, accounts: seq<Account>)
    requires Grounded(b, accounts)
    ensures Sound(b, accounts)
  {
    forall i | 0 <= i < |accounts| ensures IsCents(AccountTotal(b.members, accounts[i].id)) {
      TotalInCents(AccountPart(b.members, accounts[i].id));
    }
    assert forall m :: m in b.totals ==> IsCents(b.totals[m]);
    TotalInCents(b.totals);
    hide Total, AccountTotal;
  }

  lemma {:induction false} SharesWithin(p: Position, account: int, shares: seq<Share>, accounts: seq<Account>, n: nat)
    requires n <= |shares| && Within(p, accounts) && IsAccount(accounts, account)
    ensures Within(AddShares(p, account, shares, n), accounts)
  {
    hide IsAccount;
    if n > 0 { SharesWithin(p, account, shares, accounts, n - 1); }
  }

  lemma {:induction false} MembersWithin(c: Movements.Config, tx: Movements.Tx, p: Position, accounts: seq<Account>, n: nat)
    requires Mapped(c, accounts) && n <= |tx.entries| && Within(p, accounts)
    ensures Within(Movements.MembersAfter(c, tx, p, n), accounts)
  {
    if n > 0 {
      MembersWithin(c, tx, p, accounts, n - 1);
      var leg := Movements.LegOf(c, tx, tx.entries[n - 1]);
      if leg.Split? {
        assert IsAccount(accounts, leg.account);
        hide Within, IsAccount, AddShares;
        SharesWithin(Movements.MembersAfter(c, tx, p, n - 1), leg.account, leg.shares, accounts, |leg.shares|);
      }
    }
  }

  lemma {:induction false} MembersBalance(c: Movements.Config, tx: Movements.Tx, p: Position, a: int, n: nat)
    requires Movements.ValidConfig(c) && n <= |tx.entries| && IsCents(AccountTotal(p, a))
    ensures IsCents(AccountTotal(Movements.MembersAfter(c, tx, p, n), a))
  {
    if n > 0 {
      MembersBalance(c, tx, p, a, n - 1);
      var leg := Movements.LegOf(c, tx, tx.entries[n - 1]);
      if leg.Split? {
        var before := Movements.MembersAfter(c, tx, p, n - 1);
        Movements.SplitLeg(c, tx, tx.entries[n - 1]);
        Movements.HeldCents(c, tx, tx.entries[n - 1]);
        AddSharesAccount(before, leg.account, leg.shares, |leg.shares|, a);
        CentsAdd(AccountTotal(before, a), leg.amount);
      }
      hide Movements.LegOf, AddShares, AllCents, AccountTotal, IsCents;
    }
  }

  lemma StepSound(c: Movements.Config, b: Movements.Books, tx: Movements.Tx, accounts: seq<Account>)
    requires Movements.ValidConfig(c) && Mapped(c, accounts) && Sound(b, accounts)
    ensures Sound(Movements.Step(c, b, tx), accounts)
  {
    hide Movements.Step, Movements.OutcomeOf, Movements.MembersAfter, Movements.EconomicDelta, Mapped, Within, AccountTotal, Total, IsCents;
    Movements.StepMembers(c, b, tx);
    Movements.StepHousehold(c, b, tx);
    Movements.EconomicCents(c, tx);
    MembersWithin(c, tx, b.members, accounts, |tx.entries|);
    if Movements.OutcomeOf(c, tx).Economic? { CentsAdd(Total(b.totals), Movements.EconomicDelta(c, tx)); }
    forall i | 0 <= i < |accounts| ensures IsCents(AccountTotal(Movements.MembersAfter(c, tx, b.members, |tx.entries|), accounts[i].id)) {
      MembersBalance(c, tx, b.members, accounts[i].id, |tx.entries|);
    }
  }

  lemma {:induction false} FoldSound(c: Movements.Config, b: Movements.Books, txs: seq<Movements.Tx>, accounts: seq<Account>, n: nat)
    requires Movements.ValidConfig(c) && Mapped(c, accounts) && Sound(b, accounts) && n <= |txs|
    ensures Sound(Movements.Fold(c, b, txs, n), accounts)
  {
    if n > 0 {
      hide Sound, Mapped, Movements.Step;
      FoldSound(c, b, txs, accounts, n - 1);
      StepSound(c, Movements.Fold(c, b, txs, n - 1), txs[n - 1], accounts);
    }
  }

  // ---- Where the two household totals part -----------------------------------------------------------------

  /** No part of the transaction is blocked: unless it only normalises, it is resolved and every entry on a
      participant has an owner. */
  ghost predicate Resolved(c: Movements.Config, tx: Movements.Tx) {
    var o := Movements.OutcomeOf(c, tx);
    o.Normalized? || (Movements.AllSplit(c, tx) && !o.Outside? && !o.NoOwnership? && !o.NoVector?)
  }

  /** Without blockers, and with an owner for every participant, every transaction of the month is resolved. */
  lemma {:induction false} UnblockedResolves(c: Movements.Config, opening: Movements.Books, txs: seq<Movements.Tx>)
    requires Movements.Fold(c, opening, txs, |txs|).blockers == []
    requires forall e :: e in c.participants ==> c.participants[e] in c.ownerships
    ensures forall tx :: tx in txs ==> Resolved(c, tx)
  {
    MovementLaws.FoldBlocks(c, opening, txs, |txs|);
    forall tx | tx in txs ensures Resolved(c, tx) { PlacedResolves(c, tx); }
  }

  lemma PlacedResolves(c: Movements.Config, tx: Movements.Tx)
    requires MovementLaws.Placed(c, tx) && forall e :: e in c.participants ==> c.participants[e] in c.ownerships
    ensures Resolved(c, tx)
  {
    MovementLaws.OutcomeCases(c, tx);
    hide Movements.OutcomeOf, Movements.LegOf, MovementLaws.MovedAll, MovementLaws.Net, MovementLaws.Out, MovementLaws.In;
    if tx.id !in c.normalizations {
      forall e | e in tx.entries ensures !Movements.LegOf(c, tx, e).Unowned? && !Movements.LegOf(c, tx, e).Blocked? {
        MovementLaws.LegIs(c, tx, e);
        assert MovementLaws.EntryPlaced(c, tx, e);
      }
    }
  }

  /** What an ordinary transaction moves on the participants beyond its classified income less expense. */
  function Leak(c: Movements.Config, tx: Movements.Tx): int {
    var o := Movements.OutcomeOf(c, tx);
    if o.NoEffect? || o.Economic? then Movements.ParticipantTotal(c, tx, |tx.entries|) - Movements.EconomicDelta(c, tx) else 0
  }

  function LeakTo(c: Movements.Config, txs: seq<Movements.Tx>, n: nat): int
    requires n <= |txs|
  {
    if n == 0 then 0 else LeakTo(c, txs, n - 1) + Leak(c, txs[n - 1])
  }

  lemma MovedLessCredited(c: Movements.Config, tx: Movements.Tx)
    requires Movements.ValidConfig(c) && Resolved(c, tx)
    ensures Movements.Moved(c, tx) - Movements.Credited(c, tx) == Leak(c, tx)
  {
    if Movements.AllSplit(c, tx) { Movements.SplitIsParticipantTotal(c, tx, |tx.entries|); }
    Movements.EconomicCents(c, tx);
    Movements.ParticipantCents(c, tx, |tx.entries|);
    var participant, economic := Movements.ParticipantTotal(c, tx, |tx.entries|), Movements.EconomicDelta(c, tx);
    assert ToCents(participant) == participant && ToCents(economic) == economic;
    hide Movements.ParticipantTotal, Movements.EconomicDelta, Movements.SplitAfter, ToCents;
  }

  lemma {:induction false} LeaksAddUp(c: Movements.Config, txs: seq<Movements.Tx>, n: nat)
    requires Movements.ValidConfig(c) && n <= |txs| && forall tx :: tx in txs ==> Resolved(c, tx)
    ensures Movements.MovedTo(c, txs, n) - Movements.CreditedTo(c, txs, n) == LeakTo(c, txs, n)
  {
    if n > 0 {
      LeaksAddUp(c, txs, n - 1);
      assert txs[n - 1] in txs;
      MovedLessCredited(c, txs[n - 1]);
      hide Resolved, Movements.Moved, Movements.Credited, Leak;
    }
  }

  // ---- The blockers of the preview ---------------------------------------------------------------------------

  /** `unreconciled_account_balance`. */
  ghost predicate Unreconciled(members: Position, observed: map<int, int>, account: int) {
    ToCents(Get(observed, account) - AccountTotal(members, account)) != 0
  }

  /** The sum of the observed balances as shown, in cents. */
  function ObservedTotal(accounts: seq<Account>, observed: map<int, int>, n: nat): int
    requires n <= |accounts|
  {
    if n == 0 then 0 else ObservedTotal(accounts, observed, n - 1) + ToCents(Get(observed, accounts[n - 1].id))
  }

  /** `household_total_mismatch`. */
  ghost predicate Mismatch(accounts: seq<Account>, observed: map<int, int>, totals: map<int, int>) {
    ToCents(ObservedTotal(accounts, observed, |accounts|) - Total(totals)) != 0
  }

  /** A reconciled balance in cents is shown exactly. */
  lemma ShownIsHeld(members: Position, observed: map<int, int>, account: int)
    requires IsCents(AccountTotal(members, account)) && !Unreconciled(members, observed, account)
    ensures ToCents(Get(observed, account)) == AccountTotal(members, account)
  {
    var held, seen := AccountTotal(members, account), Get(observed, account);
    assert held == held / CENT * CENT;
    RoundHalfUpIsNearest(seen - held, CENT, 0);
    RoundHalfUpIsNearest(seen, CENT, held / CENT);
    hide RoundHalfUp, AccountTotal;
  }

  /** Every account of the closing position reconciles with its observed balance. */
  ghost predicate Reconciles(members: Position, accounts: seq<Account>, observed: map<int, int>) {
    forall i :: 0 <= i < |accounts| ==> !Unreconciled(members, observed, accounts[i].id)
  }

  lemma {:induction false} ShownTotal(accounts: seq<Account>, members: Position, observed: map<int, int>, n: nat)
    requires n <= |accounts| && BalancesInCents(members, accounts) && Reconciles(members, accounts, observed)
    ensures ObservedTotal(accounts, observed, n) == SumAccounts(accounts, members, n)
    ensures IsCents(SumAccounts(accounts, members, n))
  {
    assert IsCents(0);
    if n > 0 {
      ShownTotal(accounts, members, observed, n - 1);
      assert !Unreconciled(members, observed, accounts[n - 1].id);
      ShownIsHeld(members, observed, accounts[n - 1].id);
      CentsAdd(SumAccounts(accounts, members, n - 1), AccountTotal(members, accounts[n - 1].id));
      hide ToCents, IsCents, Unreconciled, AccountTotal;
    }
  }

  /** With every account reconciled and in cents, whatever its members' shares, the mismatch blocker compares the
      two household totals exactly. */
  lemma MismatchIff(accounts: seq<Account>, members: Position, totals: map<int, int>, observed: map<int, int>)
    requires DistinctAccounts(accounts) && Within(members, accounts) && BalancesInCents(members, accounts) && IsCents(Total(totals))
    requires Reconciles(members, accounts, observed)
    ensures Mismatch(accounts, observed, totals) <==> Total(members) != Total(totals)
  {
    hide Total, ObservedTotal, SumAccounts, Reconciles, Within, BalancesInCents, DistinctAccounts;
    ShownTotal(accounts, members, observed, |accounts|);
    SumAccountsIsTotal(accounts, members);
    CentsAdd(Total(members), Total(totals));
    assert ToCents(Total(members) - Total(totals)) == Total(members) - Total(totals);
    hide ToCents;
  }

  // ---- End to end ------------------------------------------------------------------------------------------------

  /** The opening position, in cents on participants, gives every member the total of its accounts. */
  ghost predicate Opens(b: Movements.Books, accounts: seq<Account>) {
    Grounded(b, accounts) && forall m :: MemberTotal(b.members, m) == Get(b.totals, m)
  }

  /** A row of a frozen snapshot: cents on a participant. */
  ghost predicate SnapshotRow(row: FrozenAccount, accounts: seq<Account>) {
    AllCents(row.closing) && row.observed.Some? && IsCents(row.observed.value) && IsAccount(accounts, row.account)
  }

  lemma {:induction false} SharesInCents(s: seq<Share>, n: nat)
    requires AllCents(s) && n <= |s|
    ensures IsCents(Allocation.SumTo(s, n))
  {
    if n == 0 {
      assert IsCents(0);
    } else {
      SharesInCents(s, n - 1);
      CentsAdd(Allocation.SumTo(s, n - 1), s[n - 1].amount);
      hide IsCents;
    }
  }

  lemma ReopenedInCents(row: FrozenAccount, accounts: seq<Account>)
    requires SnapshotRow(row, accounts)
    ensures AllCents(Reopened(row))
  {
    SharesInCents(row.closing, |row.closing|);
    CentsAdd(row.observed.value, SumShares(row.closing));
    if row.closing != [] {
      CentsAdd(row.closing[MaxMember(row.closing, |row.closing|)].amount, Residue(row));
    }
    hide IsCents, Allocation.SumTo, IsAccount;
  }

  lemma {:induction false} MembersInCents(t: map<int, int>, s: seq<Share>, n: nat)
    requires CentMap(t) && AllCents(s) && n <= |s|
    ensures CentMap(AddMembers(t, s, n))
  {
    if n > 0 {
      MembersInCents(t, s, n - 1);
      assert IsCents(0);
      CentsAdd(Get(AddMembers(t, s, n - 1), s[n - 1].member), s[n - 1].amount);
      hide IsCents;
    }
  }

  lemma {:induction false} SnapshotInCents(rows: seq<FrozenAccount>, accounts: seq<Account>, n: nat)
    requires n <= |rows| && forall i :: 0 <= i < |rows| ==> SnapshotRow(rows[i], accounts)
    ensures CentPosition(OpenedMembers(rows, n)) && Within(OpenedMembers(rows, n), accounts) && CentMap(OpenedTotals(rows, n))
  {
    if n > 0 {
      SnapshotInCents(rows, accounts, n - 1);
      var s := Reopened(rows[n - 1]);
      ReopenedInCents(rows[n - 1], accounts);
      Reserves.AddSharesKeys(OpenedMembers(rows, n - 1), rows[n - 1].account, s, |s|);
      MembersInCents(OpenedTotals(rows, n - 1), s, |s|);
      hide IsCents, IsAccount, Reopened, AllCents, CentMap, AddShares, AddMembers;
    }
  }

  /** The position a close opens with from a frozen snapshot is one. */
  lemma SnapshotOpens(b: Movements.Books, rows: seq<FrozenAccount>, accounts: seq<Account>)
    requires forall i :: 0 <= i < |rows| ==> SnapshotRow(rows[i], accounts)
    requires b.members == OpenedMembers(rows, |rows|) && b.totals == OpenedTotals(rows, |rows|)
    ensures Opens(b, accounts)
  {
    hide CentPosition, CentMap, Within, MemberTotal, SnapshotRow;
    SnapshotInCents(rows, accounts, |rows|);
    forall m ensures MemberTotal(b.members, m) == Get(b.totals, m) { OpenedMemberAgrees(rows, |rows|, m); }
  }

  lemma {:induction false} RowsWithin(rows: seq<FrozenAccount>, accounts: seq<Account>, n: nat)
    requires n <= |rows| && forall i :: 0 <= i < |rows| ==> IsAccount(accounts, rows[i].account)
    ensures Within(OpenedMembers(rows, n), accounts)
  {
    if n > 0 {
      RowsWithin(rows, accounts, n - 1);
      var s := Reopened(rows[n - 1]);
      hide Within, IsAccount, Reopened;
      SharesWithin(OpenedMembers(rows, n - 1), rows[n - 1].account, s, accounts, |s|);
    }
  }

  lemma {:induction false} AccountsInCents(accounts: seq<Account>, p: Position, n: nat)
    requires n <= |accounts| && BalancesInCents(p, accounts)
    ensures IsCents(SumAccounts(accounts, p, n))
  {
    assert IsCents(0);
    if n > 0 {
      AccountsInCents(accounts, p, n - 1);
      CentsAdd(SumAccounts(accounts, p, n - 1), AccountTotal(p, accounts[n - 1].id));
      hide IsCents, AccountTotal;
    }
  }

  /** A position opened from captured balances in cents, however finely split, is sound and adds up by member. */
  lemma BaselineOpens(b: Movements.Books, rows: seq<FrozenAccount>, accounts: seq<Account>)
    requires DistinctAccounts(accounts) && forall i :: 0 <= i < |rows| ==> IsAccount(accounts, rows[i].account)
    requires b.members == OpenedMembers(rows, |rows|) && b.totals == OpenedTotals(rows, |rows|)
    requires forall i :: 0 <= i < |accounts| ==> IsCents(PutOn(rows, |rows|, accounts[i].id))
    ensures Sound(b, accounts) && forall m :: MemberTotal(b.members, m) == Get(b.totals, m)
  {
    hide Within, MemberTotal, AccountTotal, IsCents, PutOn, DistinctAccounts, Total, IsAccount;
    RowsWithin(rows, accounts, |rows|);
    forall m ensures MemberTotal(b.members, m) == Get(b.totals, m) { OpenedMemberAgrees(rows, |rows|, m); }
    forall i | 0 <= i < |accounts| ensures IsCents(AccountTotal(b.members, accounts[i].id)) {
      OpenedAccount(rows, |rows|, accounts[i].id);
    }
    AccountsInCents(accounts, b.members, |accounts|);
    SumAccountsIsTotal(accounts, b.members);
    MembersMakeTotal(b.members, b.totals);
  }

  ghost predicate MonthOk(c: Movements.Config, opening: Movements.Books, s: Reserves.Setup, accounts: seq<Account>, ownerships: map<int, int>) {
    && Movements.ValidConfig(c) && Reserves.SetupOk(s) && Reserves.Participants(s, accounts)
    && Mapped(c, accounts) && Opens(opening, accounts) && forall i :: 0 <= i < |accounts| ==> accounts[i].id in ownerships
  }

  ghost function Closing(c: Movements.Config, opening: Movements.Books, txs: seq<Movements.Tx>): Movements.Books {
    Movements.Fold(c, opening, txs, |txs|)
  }

  lemma {:induction false} MonthIsClear(c: Movements.Config, opening: Movements.Books, txs: seq<Movements.Tx>, accounts: seq<Account>, observed: map<int, int>)
    requires Movements.ValidConfig(c) && Mapped(c, accounts) && DistinctAccounts(accounts)
    requires Sound(opening, accounts) && Total(opening.members) == Total(opening.totals)
    requires Reconciles(Closing(c, opening, txs).members, accounts, observed)
    ensures var closing := Closing(c, opening, txs);
            && Sound(closing, accounts)
            && (Mismatch(accounts, observed, closing.totals) <==> Total(closing.members) != Total(closing.totals))
            && (Total(closing.members) == Total(closing.totals) <==>
                Movements.MovedTo(c, txs, |txs|) == Movements.CreditedTo(c, txs, |txs|))
  {
    var closing := Closing(c, opening, txs);
    FoldSound(c, opening, txs, accounts, |txs|);
    hide *;
    Movements.FoldHousehold(c, opening, txs, |txs|);
    MismatchIff(accounts, closing.members, closing.totals, observed);
  }

  lemma OpensEven(b: Movements.Books, accounts: seq<Account>)
    requires Opens(b, accounts)
    ensures Grounded(b, accounts) && Sound(b, accounts) && Total(b.members) == Total(b.totals)
  {
    hide MemberTotal, Grounded, Sound, Total;
    GroundedIsSound(b, accounts);
    MembersMakeTotal(b.members, b.totals);
  }

  lemma ShownEverywhere(accounts: seq<Account>, members: Position, observed: map<int, int>)
    requires BalancesInCents(members, accounts) && Reconciles(members, accounts, observed)
    ensures forall i :: 0 <= i < |accounts| ==> ToCents(Get(observed, accounts[i].id)) == AccountTotal(members, accounts[i].id)
  {
    hide AccountTotal, ToCents, IsCents, Unreconciled;
    forall i | 0 <= i < |accounts| ensures ToCents(Get(observed, accounts[i].id)) == AccountTotal(members, accounts[i].id) {
      assert !Unreconciled(members, observed, accounts[i].id);
      ShownIsHeld(members, observed, accounts[i].id);
    }
  }

  /** A whole month, any transactions and any budget: when every account reconciles, the mismatch blocker is
      absent exactly when what moved on the accounts is what was credited to the members, and exactly when
      executing the routed transfers takes every account from the balance it shows to its target. */
  lemma {:induction false} MonthReachesTargets(c: Movements.Config, opening: Movements.Books, txs: seq<Movements.Tx>, s: Reserves.Setup,
                            expenses: seq<Reserves.Expense>, accounts: seq<Account>, ownerships: map<int, int>, observed: map<int, int>)
    requires MonthOk(c, opening, s, accounts, ownerships) && Reconciles(Closing(c, opening, txs).members, accounts, observed)
    requires var closing := Closing(c, opening, txs);
             Placed(BaseTargets(accounts, closing.members, Reserves.ReservesOf(s, expenses).requirements), closing.totals,
                    PrimaryOf(accounts, |accounts|))
    ensures var closing := Closing(c, opening, txs);
            var requirements := Reserves.ReservesOf(s, expenses).requirements;
            && ReadyToRoute(accounts, closing.members, requirements, closing.totals, ownerships)
            && var targets := TargetsOf(accounts, closing.members, requirements, closing.totals);
               var rows := Transfers(accounts, closing.members, requirements, closing.totals, ownerships);
               var clear := !Mismatch(accounts, observed, closing.totals);
               && (clear <==> Movements.MovedTo(c, txs, |txs|) == Movements.CreditedTo(c, txs, |txs|))
               && (clear <==> forall i :: 0 <= i < |accounts| ==>
                     ToCents(Get(observed, accounts[i].id)) + Effect(rows, accounts[i].id) == AccountTotal(targets, accounts[i].id))
  {
    var closing := Closing(c, opening, txs);
    OpensEven(opening, accounts);
    FoldGrounded(c, opening, txs, accounts, |txs|);
    hide *;
    MonthIsClear(c, opening, txs, accounts, observed);
    ShownEverywhere(accounts, closing.members, observed);
    Reserves.BudgetReachesTargets(s, expenses, accounts, closing.members, closing.totals, ownerships);
  }

  /** What the month leaves the household with: without the mismatch blocker, executing the transfers takes an
      operating account, and any other that is nobody's primary one, from the balance it shows to exactly what the
      budget of next month requires there, on top of its balance if that is kept. */
  lemma {:induction false} MonthFunds(c: Movements.Config, opening: Movements.Books, txs: seq<Movements.Tx>, s: Reserves.Setup,
                       expenses: seq<Reserves.Expense>, accounts: seq<Account>, ownerships: map<int, int>, observed: map<int, int>, i: nat)
    requires MonthOk(c, opening, s, accounts, ownerships) && Reconciles(Closing(c, opening, txs).members, accounts, observed)
    requires var closing := Closing(c, opening, txs);
             Placed(BaseTargets(accounts, closing.members, Reserves.ReservesOf(s, expenses).requirements), closing.totals,
                    PrimaryOf(accounts, |accounts|))
    requires !Mismatch(accounts, observed, Closing(c, opening, txs).totals)
    requires i < |accounts| && !(accounts[i].role.PersonalDestination? && accounts[i].primary)
    ensures var closing := Closing(c, opening, txs);
            var requirements := Reserves.ReservesOf(s, expenses).requirements;
            var a := accounts[i];
            var kept := a.role.Wallet? || a.role.AllocationDestination? || a.role.CreditCard? || a.role.InvestmentPosition? || a.role.InvestmentCash?;
            && Arranged(accounts, closing.members, requirements, closing.totals, ownerships)
            && ToCents(Get(observed, a.id)) + Effect(Transfers(accounts, closing.members, requirements, closing.totals, ownerships), a.id)
               == AccountTotal(requirements, a.id) + if kept then AccountTotal(closing.members, a.id) else 0
  {
    hide *;
    var closing := Closing(c, opening, txs);
    MonthReachesTargets(c, opening, txs, s, expenses, accounts, ownerships, observed);
    ReadyIsArranged(accounts, closing.members, Reserves.ReservesOf(s, expenses).requirements, closing.totals, ownerships);
    TargetTotal(accounts, closing.members, Reserves.ReservesOf(s, expenses).requirements, closing.totals, i);
  }

  lemma ReadyIsArranged(accounts: seq<Account>, current: Position, requirements: Position, totals: map<int, int>, ownerships: map<int, int>)
    requires ReadyToRoute(accounts, current, requirements, totals, ownerships)
    ensures Arranged(accounts, current, requirements, totals, ownerships) && DistinctAccounts(accounts)
  {
    hide Placed, AccountTotal;
  }

  /** Only the balances of the opening need be in cents, as right after activation, when members share them to
      the last 1e-8: the mismatch blocker decides the same, and in its absence the transfers bring every account
      within half a cent for itself and for every account of its target. */
  lemma {:induction false} MonthComesNear(c: Movements.Config, opening: Movements.Books, txs: seq<Movements.Tx>, s: Reserves.Setup,
                       expenses: seq<Reserves.Expense>, accounts: seq<Account>, ownerships: map<int, int>, observed: map<int, int>, i: nat)
    requires Movements.ValidConfig(c) && Reserves.SetupOk(s) && Reserves.Participants(s, accounts) && Mapped(c, accounts)
    requires forall j :: 0 <= j < |accounts| ==> accounts[j].id in ownerships
    requires Sound(opening, accounts) && (forall m :: MemberTotal(opening.members, m) == Get(opening.totals, m)) && i < |accounts|
    requires var closing := Closing(c, opening, txs);
             && Reconciles(closing.members, accounts, observed)
             && Placed(BaseTargets(accounts, closing.members, Reserves.ReservesOf(s, expenses).requirements), closing.totals,
                       PrimaryOf(accounts, |accounts|))
    ensures var closing := Closing(c, opening, txs);
            var requirements := Reserves.ReservesOf(s, expenses).requirements;
            && Arranged(accounts, closing.members, requirements, closing.totals, ownerships)
            && var targets := TargetsOf(accounts, closing.members, requirements, closing.totals);
               var rows := Transfers(accounts, closing.members, requirements, closing.totals, ownerships);
               var clear := !Mismatch(accounts, observed, closing.totals);
               var a := accounts[i].id;
               && (clear <==> Movements.MovedTo(c, txs, |txs|) == Movements.CreditedTo(c, txs, |txs|))
               && (clear ==> 2 * Abs(ToCents(Get(observed, a)) + Effect(rows, a) - AccountTotal(targets, a)) <= (|accounts| + 1) * CENT)
  {
    var closing := Closing(c, opening, txs);
    hide Closing, Sound, Mapped, Placed, MemberTotal, Movements.ValidConfig, Reserves.SetupOk, Reserves.ReservesOf, Reconciles,
         Transfers, TargetsOf, Effect, AccountTotal, Total, BaseTargets, PrimaryOf, ToCents, Get, Arranged, Mismatch, Abs,
         Movements.MovedTo, Movements.CreditedTo;
    MembersMakeTotal(opening.members, opening.totals);
    MonthIsClear(c, opening, txs, accounts, observed);
    MonthIsArranged(s, expenses, accounts, closing, ownerships);
    SoundShows(closing, accounts, observed);
    if Total(closing.members) == Total(closing.totals) {
      SettlementComesNear(accounts, closing.members, Reserves.ReservesOf(s, expenses).requirements, closing.totals, ownerships, i);
    }
  }

  lemma SoundShows(b: Movements.Books, accounts: seq<Account>, observed: map<int, int>)
    requires Sound(b, accounts) && Reconciles(b.members, accounts, observed)
    ensures forall i :: 0 <= i < |accounts| ==> ToCents(Get(observed, accounts[i].id)) == AccountTotal(b.members, accounts[i].id)
  {
    hide ToCents, AccountTotal, Reconciles, BalancesInCents, Within, Total;
    ShownEverywhere(accounts, b.members, observed);
  }

  lemma MonthIsArranged(s: Reserves.Setup, expenses: seq<Reserves.Expense>, accounts: seq<Account>, closing: Movements.Books,
                        ownerships: map<int, int>)
    requires Reserves.SetupOk(s) && Reserves.Participants(s, accounts) && Sound(closing, accounts)
    requires forall i :: 0 <= i < |accounts| ==> accounts[i].id in ownerships
    requires Placed(BaseTargets(accounts, closing.members, Reserves.ReservesOf(s, expenses).requirements), closing.totals,
                    PrimaryOf(accounts, |accounts|))
    ensures Arranged(accounts, closing.members, Reserves.ReservesOf(s, expenses).requirements, closing.totals, ownerships)
  {
    hide Reserves.ReservesOf, Reserves.SetupOk, Placed, AccountTotal, BaseTargets, PrimaryOf, CentPosition, Within, BalancesInCents, Total;
    Reserves.ReservesFitRouting(s, expenses, accounts);
  }

  // ---- The direct branch from transactions ---------------------------------------------------------------------

  /** `compensation_totals`: what the first n compensations owe each member. */
  function Owed(rows: seq<Movements.Compensation>, n: nat): map<int, int>
    requires n <= |rows|
  {
    if n == 0 then map[] else Merged(Owed(rows, n - 1), rows[n - 1].members)
  }

  lemma {:induction false} OwedPrefix(rows: seq<Movements.Compensation>, last: Movements.Compensation, n: nat)
    requires n <= |rows|
    ensures Owed(rows + [last], n) == Owed(rows, n)
  {
    if n > 0 { OwedPrefix(rows, last, n - 1); }
  }

  lemma OwedAppended(rows: seq<Movements.Compensation>, tx: int, members: map<int, int>)
    requires CentMap(members)
    ensures var after := Movements.AppendRows(rows, tx, members);
            && Total(Owed(after, |after|)) == Total(Owed(rows, |rows|)) + Total(members)
            && (CentMap(Owed(rows, |rows|)) ==> CentMap(Owed(after, |after|)))
  {
    var before := Owed(rows, |rows|);
    if members != map[] {
      OwedPrefix(rows, Movements.Compensation(tx, members), |rows|);
      TotalAdds(before, members, Merged(before, members));
      if CentMap(before) { MergedInCents(before, members); }
    }
    hide Total;
  }

  lemma MergedInCents(a: map<int, int>, b: map<int, int>)
    requires CentMap(a) && CentMap(b)
    ensures CentMap(Merged(a, b))
  {
    assert IsCents(0);
    forall m ensures IsCents(Get(a, m) + Get(b, m)) { CentsAdd(Get(a, m), Get(b, m)); }
    hide IsCents;
  }

  /** What the members are owed for a transaction, all together. */
  ghost function OwedFor(c: Movements.Config, tx: Movements.Tx): int {
    match Movements.OutcomeOf(c, tx)
    case Swept => -Total(Movements.SplitAfter(c, tx, |tx.entries|))
    case Economic(_) => Movements.EconomicDelta(c, tx) - Total(Movements.SplitAfter(c, tx, |tx.entries|))
    case _ => 0
  }

  lemma SweepTotal(c: Movements.Config, tx: Movements.Tx)
    requires Movements.ValidConfig(c)
    ensures var split := Movements.SplitAfter(c, tx, |tx.entries|);
            Total(Movements.SweepRows(split)) == -Total(split) && CentMap(Movements.SweepRows(split))
  {
    var split := Movements.SplitAfter(c, tx, |tx.entries|);
    forall m ensures Get(map[], m) == Get(Movements.SweepRows(split), m) + Get(split, m) { Movements.SweepOwes(c, tx, m); }
    assert CentMap(Movements.SweepRows(split)) by { hide ToCents; }
    hide Movements.SplitAfter, Movements.SweepRows, CentMap;
    TotalAdds(Movements.SweepRows(split), split, map[]);
  }

  lemma SettlementTotal(c: Movements.Config, tx: Movements.Tx, v: seq<Weight>)
    requires Movements.ValidConfig(c) && ValidVector(v)
    ensures var s, split := Allocated(Movements.EconomicDelta(c, tx), v, CENT), Movements.SplitAfter(c, tx, |tx.entries|);
            var rows := Movements.CompensationRows(Movements.MembersOf(s) + split.Keys, s, split);
            Total(rows) == Movements.EconomicDelta(c, tx) - Total(split) && CentMap(rows)
  {
    var s, split := Allocated(Movements.EconomicDelta(c, tx), v, CENT), Movements.SplitAfter(c, tx, |tx.entries|);
    var rows := Movements.CompensationRows(Movements.MembersOf(s) + split.Keys, s, split);
    assert CentMap(rows) by { hide ToCents, Allocated, Movements.SplitAfter, Movements.MembersOf; }
    AllocatedSum(Movements.EconomicDelta(c, tx), v, CENT);
    AddMembersTotal(map[], s, |s|);
    hide Movements.SplitAfter, Allocated, Movements.EconomicDelta, Movements.MembersOf, CentMap, Total;
    forall m ensures Get(AddMembers(map[], s, |s|), m) == Get(rows, m) + Get(split, m) {
      Movements.SettlementOwes(c, tx, v, Movements.MembersOf(s) + split.Keys, m);
      AddMembersGet(map[], s, |s|, m);
      hide AddMembers, Movements.CompensationRows;
    }
    hide AddMembers, Movements.CompensationRows;
    TotalAdds(rows, split, AddMembers(map[], s, |s|));
    EmptyTotal();
  }

  lemma EmptyTotal()
    ensures Total<int>(map[]) == 0
  {
  }

  ghost function OwedIn(b: Movements.Books): map<int, int> { Owed(b.compensations, |b.compensations|) }

  lemma StepOwes(c: Movements.Config, b: Movements.Books, tx: Movements.Tx)
    requires Movements.ValidConfig(c)
    ensures Total(OwedIn(Movements.Step(c, b, tx))) == Total(OwedIn(b)) + OwedFor(c, tx)
    ensures CentMap(OwedIn(b)) ==> CentMap(OwedIn(Movements.Step(c, b, tx)))
  {
    Movements.StepCompensations(c, b, tx);
    hide Movements.Step, Movements.OutcomeOf, Movements.SplitAfter, Movements.AppendRows, Movements.SweepRows,
         Movements.CompensationRows, Allocated, Movements.EconomicDelta, Movements.MembersOf, Owed, Total, CentMap;
    var split := Movements.SplitAfter(c, tx, |tx.entries|);
    match Movements.OutcomeOf(c, tx) {
      case Swept =>
        SweepTotal(c, tx);
        OwedAppended(b.compensations, tx.id, Movements.SweepRows(split));
      case Economic(v) =>
        Movements.EconomicVector(c, tx);
        SettlementTotal(c, tx, v);
        var s := Allocated(Movements.EconomicDelta(c, tx), v, CENT);
        OwedAppended(b.compensations, tx.id, Movements.CompensationRows(Movements.MembersOf(s) + split.Keys, s, split));
      case _ =>
    }
  }

  /** What economic transactions move on the participants beyond their classified income less expense. */
  function EconomicLeak(c: Movements.Config, tx: Movements.Tx): int {
    if Movements.OutcomeOf(c, tx).Economic? then Leak(c, tx) else 0
  }

  function EconomicLeakTo(c: Movements.Config, txs: seq<Movements.Tx>, n: nat): int
    requires n <= |txs|
  {
    if n == 0 then 0 else EconomicLeakTo(c, txs, n - 1) + EconomicLeak(c, txs[n - 1])
  }

  lemma OwedIsLeak(c: Movements.Config, tx: Movements.Tx)
    requires Movements.ValidConfig(c) && Resolved(c, tx)
    ensures OwedFor(c, tx) == -EconomicLeak(c, tx)
  {
    if Movements.AllSplit(c, tx) { Movements.SplitIsParticipantTotal(c, tx, |tx.entries|); }
    if Movements.OutcomeOf(c, tx).Swept? { Movements.InternalIsZeroSum(c, tx); }
    hide Movements.OutcomeOf, Movements.SplitAfter, Movements.ParticipantTotal, Movements.EconomicDelta;
  }

  /** Over any resolved month the compensations owe the members, all together, the opposite of what economic
      transactions leaked. */
  lemma {:induction false} FoldOwes(c: Movements.Config, b: Movements.Books, txs: seq<Movements.Tx>, n: nat)
    requires Movements.ValidConfig(c) && n <= |txs| && (forall tx :: tx in txs ==> Resolved(c, tx)) && b.compensations == []
    ensures var f := Movements.Fold(c, b, txs, n);
            Total(OwedIn(f)) == -EconomicLeakTo(c, txs, n) && CentMap(OwedIn(f))
  {
    hide *;
    if n == 0 {
      NothingOwed(c, b, txs);
    } else {
      FoldOwes(c, b, txs, n - 1);
      FoldNext(c, b, txs, n);
      assert txs[n - 1] in txs;
      StepOwes(c, Movements.Fold(c, b, txs, n - 1), txs[n - 1]);
      OwedIsLeak(c, txs[n - 1]);
    }
  }

  lemma FoldNext(c: Movements.Config, b: Movements.Books, txs: seq<Movements.Tx>, n: nat)
    requires 0 < n <= |txs|
    ensures Movements.Fold(c, b, txs, n) == Movements.Step(c, Movements.Fold(c, b, txs, n - 1), txs[n - 1])
    ensures EconomicLeakTo(c, txs, n) == EconomicLeakTo(c, txs, n - 1) + EconomicLeak(c, txs[n - 1])
  {
    hide Movements.Step, EconomicLeak;
  }

  lemma NothingOwed(c: Movements.Config, b: Movements.Books, txs: seq<Movements.Tx>)
    requires b.compensations == []
    ensures var f := Movements.Fold(c, b, txs, 0);
            Total(OwedIn(f)) == -EconomicLeakTo(c, txs, 0) && CentMap(OwedIn(f))
  {
    EmptyTotal();
  }

  lemma {:induction false} CompensatedSum(f: DirectFund.Fund, members: seq<int>, rest: map<int, int>, n: nat)
    requires Distinct(members) && n <= |members|
    requires forall m :: Get(rest, m) == if m in members[..n] then Get(f.compensations, m) else 0
    ensures DirectFund.CompensatedTo(f, members, n) == Total(rest)
    decreases n
  {
    if n == 0 {
      forall m | m in rest ensures rest[m] == 0 { assert Get(rest, m) == 0; }
      ZeroTotal(rest);
    } else {
      var m := members[n - 1];
      assert members[..n] == members[..n - 1] + [m];
      assert m !in members[..n - 1];
      var less := Plus(rest, m, -Get(f.compensations, m));
      forall k ensures Get(less, k) == if k in members[..n - 1] then Get(f.compensations, k) else 0 {
        assert Get(rest, k) == if k in members[..n] then Get(f.compensations, k) else 0;
      }
      CompensatedSum(f, members, less, n - 1);
      TotalPlus(rest, m, -Get(f.compensations, m));
    }
  }

  lemma CompensationsOfFund(f: DirectFund.Fund)
    requires forall m :: m in f.compensations && f.compensations[m] != 0 ==> m in DirectFund.FundMembers(f)
    ensures DirectFund.CompensationBalance(f) == Total(f.compensations)
  {
    var members := DirectFund.FundMembers(f);
    assert members[..|members|] == members;
    hide Total;
    CompensatedSum(f, members, f.compensations, |members|);
  }

  /** A resolved month settled by the direct branch: when every member with a compensation has a stake in the
      fund and a primary account, executing its recommendations leaves the operating account with exactly its
      obligation if and only if the economic transactions moved, all together, exactly their classified income
      less expense. */
  lemma {:induction false} MonthMeetsObligation(c: Movements.Config, opening: Movements.Books, txs: seq<Movements.Tx>, accounts: seq<Account>, f: DirectFund.Fund)
    requires Movements.ValidConfig(c) && Mapped(c, accounts) && Grounded(opening, accounts) && opening.compensations == []
    requires forall tx :: tx in txs ==> Resolved(c, tx)
    requires f.current == Closing(c, opening, txs).members && f.compensations == OwedIn(Closing(c, opening, txs))
    requires DirectFund.FullyHosted(f) && CentPosition(f.requirements)
    requires forall m :: m in f.compensations && f.compensations[m] != 0 ==> m in DirectFund.FundMembers(f)
    ensures var rows := DirectFund.DirectRows(f, DirectFund.FundMembers(f), |DirectFund.FundMembers(f)|);
            AccountTotal(f.current, f.account) + Effect(rows, f.account) == DirectFund.Obligation(f)
            <==> EconomicLeakTo(c, txs, |txs|) == 0
  {
    FoldGrounded(c, opening, txs, accounts, |txs|);
    FoldOwes(c, opening, txs, |txs|);
    CompensationsOfFund(f);
    assert DirectFund.FundInCents(f);
    hide *;
    DirectFund.FundMeetsObligation(f);
  }
}
