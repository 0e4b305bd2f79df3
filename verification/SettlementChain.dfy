/** Snapshots in a row: whatever was requested in between, the balance a READY settlement shows for an account is
    its baseline balance plus everything that moved on it from the day after activation to the end of the month. */
module SettlementChain {
  import opened Money
  import opened Wrappers
  import opened FiniteSums
  import opened Allocation
  import opened Positions
  import TransferPlan
  import Movements
  import Execution
  import opened Calendar
  import opened MonthlyClose
  import CloseRuns

  // ---- What moves on an account between two dates ------------------------------------------------------------

  /** What a transaction moves on an account: nothing when it is a wallet normalisation. */
  function Delta(c: Movements.Config, tx: Movements.Tx, a: int): int {
    if Movements.OutcomeOf(c, tx).Normalized? then 0 else Get(Movements.PhysicalAfter(c, tx, map[], |tx.entries|), a)
  }

  predicate Dated(tx: Movements.Tx, from: int, to: int) { from <= tx.date <= to }

  /** `_load_transactions`: the transactions of a period among the first n. */
  function Window(txs: seq<Movements.Tx>, from: int, to: int, n: nat): (w: seq<Movements.Tx>)
    requires n <= |txs|
    ensures forall tx :: tx in w ==> tx in txs
  {
    if n == 0 then [] else
    Window(txs, from, to, n - 1) + if Dated(txs[n - 1], from, to) then [txs[n - 1]] else []
  }

  function DeltaBetween(c: Movements.Config, txs: seq<Movements.Tx>, from: int, to: int, a: int, n: nat): int
    requires n <= |txs|
  {
    if n == 0 then 0 else
    DeltaBetween(c, txs, from, to, a, n - 1) + if Dated(txs[n - 1], from, to) then Delta(c, txs[n - 1], a) else 0
  }

  lemma {:induction false} BetweenSplits(c: Movements.Config, txs: seq<Movements.Tx>, from: int, mid: int, to: int, a: int, n: nat)
    requires n <= |txs| && from <= mid + 1 && mid <= to
    ensures DeltaBetween(c, txs, from, to, a, n) == DeltaBetween(c, txs, from, mid, a, n) + DeltaBetween(c, txs, mid + 1, to, a, n)
  {
    hide Delta;
    if n > 0 { BetweenSplits(c, txs, from, mid, to, a, n - 1); }
  }

  lemma {:induction false} PhysicalInCents(c: Movements.Config, tx: Movements.Tx, a: int, n: nat)
    requires n <= |tx.entries|
    ensures IsCents(Get(Movements.PhysicalAfter(c, tx, map[], n), a))
  {
    assert IsCents(0);
    if n > 0 {
      PhysicalInCents(c, tx, a, n - 1);
      var e := tx.entries[n - 1];
      Movements.HeldCents(c, tx, e);
      hide Movements.LegOf, IsCents;
      if Movements.Held(Movements.LegOf(c, tx, e)) {
        CentsAdd(Get(Movements.PhysicalAfter(c, tx, map[], n - 1), a), Movements.LegOf(c, tx, e).amount);
      }
    }
  }

  lemma {:induction false} BetweenInCents(c: Movements.Config, txs: seq<Movements.Tx>, from: int, to: int, a: int, n: nat)
    requires n <= |txs|
    ensures IsCents(DeltaBetween(c, txs, from, to, a, n))
  {
    assert IsCents(0);
    if n > 0 {
      BetweenInCents(c, txs, from, to, a, n - 1);
      PhysicalInCents(c, txs[n - 1], a, |txs[n - 1].entries|);
      hide IsCents, Movements.OutcomeOf, Movements.PhysicalAfter;
      CentsAdd(DeltaBetween(c, txs, from, to, a, n - 1), Delta(c, txs[n - 1], a));
    }
  }

  lemma StepMovesAccount(c: Movements.Config, b: Movements.Books, tx: Movements.Tx, a: int)
    requires Movements.ValidConfig(c) && Movements.AllSplit(c, tx)
    ensures AccountTotal(Movements.Step(c, b, tx).members, a) == AccountTotal(b.members, a) + Delta(c, tx, a)
  {
    hide Movements.Step, Movements.OutcomeOf, Movements.MembersAfter, Movements.PhysicalAfter, AccountTotal, Movements.Unsplit,
         Movements.AllSplit;
    Movements.StepMembers(c, b, tx);
    Movements.AccountMoves(c, tx, b.members, map[], |tx.entries|, a);
    Movements.UnsplitIsZero(c, tx, a, |tx.entries|);
  }

  lemma {:induction false} FoldPrefix(c: Movements.Config, b: Movements.Books, txs: seq<Movements.Tx>, last: Movements.Tx, n: nat)
    requires n <= |txs|
    ensures Movements.Fold(c, b, txs + [last], n) == Movements.Fold(c, b, txs, n)
  {
    hide Movements.Step;
    if n > 0 { FoldPrefix(c, b, txs, last, n - 1); }
  }

  ghost function Closing(c: Movements.Config, b: Movements.Books, w: seq<Movements.Tx>): Position {
    Movements.Fold(c, b, w, |w|).members
  }

  /** Folding the transactions of a period moves every account by what they move on it. */
  lemma {:induction false} WindowMoves(c: Movements.Config, b: Movements.Books, txs: seq<Movements.Tx>, from: int, to: int, a: int, n: nat)
    requires Movements.ValidConfig(c) && n <= |txs| && forall tx :: tx in txs ==> Movements.AllSplit(c, tx)
    ensures AccountTotal(Closing(c, b, Window(txs, from, to, n)), a)
            == AccountTotal(b.members, a) + DeltaBetween(c, txs, from, to, a, n)
  {
    if n > 0 {
      WindowMoves(c, b, txs, from, to, a, n - 1);
      var tx, before := txs[n - 1], Window(txs, from, to, n - 1);
      hide AccountTotal, Delta, Movements.Step, Movements.AllSplit;
      if Dated(tx, from, to) {
        assert tx in txs;
        FoldPrefix(c, b, before, tx, |before|);
        StepMovesAccount(c, Movements.Fold(c, b, before, |before|), tx, a);
      } else {
        assert before + [] == before;
      }
    }
  }

  // ---- One snapshot ----------------------------------------------------------------------------------------------

  /** The row of an account: its member shares of the closing position, reconciled with an observed balance. */
  ghost predicate RowOf(row: FrozenAccount, p: Position, account: int, amounts: seq<Share>, observed: int) {
    && row.account == account
    && (forall i, j :: 0 <= i < j < |amounts| ==> amounts[i].member != amounts[j].member)
    && (forall i :: 0 <= i < |amounts| ==> Get(p, (account, amounts[i].member)) == amounts[i].amount)
    && (forall k :: k in p && k.0 == account ==> exists i :: 0 <= i < |amounts| && amounts[i].member == k.1)
    && Reconciled(amounts, observed) && RowsOf(row.closing, amounts) && row.observed == Some(ToCents(observed))
  }

  /** The snapshot was computed from its opening position and the transactions of its period, an account at a
      time. */
  ghost predicate ComputedFrom(c: Movements.Config, txs: seq<Movements.Tx>, s: Snapshot, accounts: seq<int>, b: Movements.Books,
                               amounts: seq<seq<Share>>, observed: seq<int>) {
    && b.members == s.opening && |s.accounts| == |accounts| == |amounts| == |observed|
    && var closing := Closing(c, b, Window(txs, s.start, s.end, |txs|));
       forall i :: 0 <= i < |accounts| ==> RowOf(s.accounts[i], closing, accounts[i], amounts[i], observed[i])
  }

  ghost predicate Computed(c: Movements.Config, txs: seq<Movements.Tx>, s: Snapshot, accounts: seq<int>) {
    exists b, amounts, observed :: ComputedFrom(c, txs, s, accounts, b, amounts, observed)
  }

  lemma {:induction false} SharesAt(p: Position, account: int, amounts: seq<Share>, members: seq<int>, n: nat)
    requires n <= |amounts| == |members|
    requires forall i :: 0 <= i < |amounts| ==> members[i] == amounts[i].member && Get(p, (account, members[i])) == amounts[i].amount
    ensures TransferPlan.SumAt(p, account, members, n) == SumTo(amounts, n)
  {
    if n > 0 { SharesAt(p, account, amounts, members, n - 1); }
  }

  lemma RowTotal(row: FrozenAccount, p: Position, account: int, amounts: seq<Share>, observed: int)
    requires RowOf(row, p, account, amounts, observed)
    ensures SumShares(amounts) == AccountTotal(p, account)
  {
    var members := seq(|amounts|, i requires 0 <= i < |amounts| => amounts[i].member);
    forall k | k in p && k.0 == account ensures k.1 in members {
      var i :| 0 <= i < |amounts| && amounts[i].member == k.1;
      assert members[i] == k.1;
    }
    SharesAt(p, account, amounts, members, |amounts|);
    hide Reconciled, RowsOf;
    TransferPlan.SumAtIsTotal(p, account, members);
  }

  /** A balance in whole cents re-opens to itself, however many members share it. */
  lemma RowReopens(row: FrozenAccount, p: Position, account: int, amounts: seq<Share>, observed: int)
    requires RowOf(row, p, account, amounts, observed) && IsCents(AccountTotal(p, account))
    ensures SumShares(Reopened(row)) == AccountTotal(p, account)
  {
    RowTotal(row, p, account, amounts, observed);
    var held := SumShares(amounts);
    if amounts != [] {
      OpeningCarry(account, amounts, row.closing, observed);
      RoundsTo(observed, held);
      assert row == FrozenAccount(account, row.closing, Some(ToCents(observed)));
    } else {
      assert Reopened(row) == [];
    }
    hide AccountTotal, Reopened, Allocation.SumTo, RowsOf;
  }

  lemma RoundsTo(observed: int, held: int)
    requires IsCents(held) && ToCents(observed - held) == 0
    ensures ToCents(observed) == held
  {
    assert held == held / CENT * CENT;
    RoundHalfUpIsNearest(observed - held, CENT, 0);
    RoundHalfUpIsNearest(observed, CENT, held / CENT);
    hide RoundHalfUp;
  }

  ghost predicate Resolvable(c: Movements.Config, txs: seq<Movements.Tx>) {
    Movements.ValidConfig(c) && forall tx :: tx in txs ==> Movements.AllSplit(c, tx)
  }

  lemma RowsShow(rows: seq<FrozenAccount>, p: Position, accounts: seq<int>, amounts: seq<seq<Share>>, observed: seq<int>, i: nat)
    requires |rows| == |accounts| == |amounts| == |observed| && Distinct(accounts) && i < |accounts|
    requires forall j :: 0 <= j < |accounts| ==> RowOf(rows[j], p, accounts[j], amounts[j], observed[j])
    requires IsCents(AccountTotal(p, accounts[i]))
    ensures AccountTotal(OpenedBy(rows), accounts[i]) == AccountTotal(p, accounts[i])
  {
    forall j | 0 <= j < |accounts| ensures rows[j].account == accounts[j] {
      assert RowOf(rows[j], p, accounts[j], amounts[j], observed[j]);
      hide *;
    }
    hide AccountTotal, IsCents, Reopened, RowOf;
    RowReopens(rows[i], p, accounts[i], amounts[i], observed[i]);
    OpenedAccount(rows, |rows|, accounts[i]);
    PutOnOne(rows, |rows|, i);
  }

  /** What a computed snapshot shows, as the next close opens it: what it opened with plus what moved in its
      period. */
  lemma SnapshotShows(c: Movements.Config, txs: seq<Movements.Tx>, s: Snapshot, accounts: seq<int>, i: nat)
    requires Resolvable(c, txs) && Computed(c, txs, s, accounts) && Distinct(accounts) && i < |accounts|
    requires IsCents(AccountTotal(s.opening, accounts[i]))
    ensures AccountTotal(OpenedBy(s.accounts), accounts[i])
            == AccountTotal(s.opening, accounts[i]) + DeltaBetween(c, txs, s.start, s.end, accounts[i], |txs|)
    ensures IsCents(AccountTotal(OpenedBy(s.accounts), accounts[i]))
  {
    hide AccountTotal, IsCents, RowOf, DeltaBetween, Closing, OpenedBy;
    var b, amounts, observed :| ComputedFrom(c, txs, s, accounts, b, amounts, observed);
    var a := accounts[i];
    WindowMoves(c, b, txs, s.start, s.end, a, |txs|);
    BetweenInCents(c, txs, s.start, s.end, a, |txs|);
    CentsAdd(AccountTotal(s.opening, a), DeltaBetween(c, txs, s.start, s.end, a, |txs|));
    RowsShow(s.accounts, Closing(c, b, Window(txs, s.start, s.end, |txs|)), accounts, amounts, observed, i);
  }

  // ---- Where the first snapshot opened from ------------------------------------------------------------------------

  ghost function Baseline(p: Profile, n: nat): Position
    requires n <= |p.baseline|
  {
    OpenedBy(p.baseline[..n] + p.adjustments)
  }

  /** A READY settlement without a predecessor opened the day after activation from the baseline as captured
      so far. */
  ghost predicate Based(o: Office, m: int)
    requires ReadyAt(o.months, m)
  {
    var s := o.months[m].snapshot.value;
    s.previous.None? ==>
      && o.profile.activation.Some? && s.start == o.profile.activation.value + 1 && o.profile.activation.value <= s.end
      && exists n: nat :: n <= |o.profile.baseline| && s.opening == Baseline(o.profile, n)
  }

  ghost predicate AllBased(o: Office) { forall m :: ReadyAt(o.months, m) ==> Based(o, m) }

  /** The profile keeps activation, adjustments and what was captured; accounts may be added. */
  ghost predicate Extends(p: Profile, q: Profile) {
    p.activation == q.activation && p.adjustments == q.adjustments && p.baseline <= q.baseline
  }

  lemma ProfileExtends(o: Office, q: Request)
    requires OfficeInv(o) && AnyReady(o.months)
    ensures Extends(o.profile, Serve(o, q).0.profile)
  {
    hide MonthsOk, RecsOk, Execution.Inv, Execution.Step, SnapshotOf, TotalsOf, Moved, Kept, AnyReady;
  }

  lemma BasedStays(o: Office, after: Office, m: int)
    requires ReadyAt(o.months, m) && Based(o, m) && Extends(o.profile, after.profile)
    requires ReadyAt(after.months, m) && after.months[m].snapshot == o.months[m].snapshot
    ensures Based(after, m)
  {
    var s := o.months[m].snapshot.value;
    if s.previous.None? {
      var n: nat :| n <= |o.profile.baseline| && s.opening == Baseline(o.profile, n);
      assert after.profile.baseline[..n] == o.profile.baseline[..n];
      assert s.opening == Baseline(after.profile, n);
    }
  }

  lemma BasedWhenNew(o: Office, m: int, r: Report)
    requires ProfileOk(o.profile) && FinalizeStep(o, m, r).1 && ReadyAt(FinalizeStep(o, m, r).0.months, m)
    ensures Based(FinalizeStep(o, m, r).0, m)
  {
    hide TotalsOf, NewRecs, NewOrder, MonthEnd, Previous, OpenedBy;
    assert o.profile.baseline[..|o.profile.baseline|] == o.profile.baseline;
    assert OpenedBy(o.profile.baseline + o.profile.adjustments) == Baseline(o.profile, |o.profile.baseline|);
  }

  /** READY after a request: as before, or just finalized. */
  lemma ReadyFrom(o: Office, q: Request, m: int)
    requires ReadyAt(Serve(o, q).0.months, m)
    ensures (ReadyAt(o.months, m) && Serve(o, q).0.months[m].snapshot == o.months[m].snapshot)
            || (q.Finalize? && q.month == m && FinalizeStep(o, m, q.report).1)
  {
    hide Previous, OpeningStart, Kept, Moved, Opening, TotalsOf, NewRecs, NewOrder, Execution.Step, RebaselineStep, ActivateStep;
  }

  lemma StepBased(o: Office, q: Request)
    requires OfficeInv(o) && AllBased(o)
    ensures AllBased(Serve(o, q).0)
  {
    var after := Serve(o, q).0;
    hide Serve, MonthsOk, RecsOk, Execution.Inv;
    forall m | ReadyAt(after.months, m) ensures Based(after, m) {
      ReadyFrom(o, q, m);
      if ReadyAt(o.months, m) && after.months[m].snapshot == o.months[m].snapshot {
        assert AnyReady(o.months);
        ProfileExtends(o, q);
        hide Based, Extends;
        BasedStays(o, after, m);
      } else {
        ServedFinalize(o, q);
        hide Based, FinalizeStep;
        BasedWhenNew(o, m, q.report);
      }
    }
  }

  lemma ServedFinalize(o: Office, q: Request)
    requires q.Finalize?
    ensures Serve(o, q) == FinalizeStep(o, q.month, q.report)
  {
    hide FinalizeStep;
  }

  lemma {:induction false} ServedBased(o: Office, qs: seq<Request>, n: nat)
    requires Blank(o) && n <= |qs| && forall i :: 0 <= i < |qs| ==> GoodRequest(qs[i])
    ensures AllBased(Served(o, qs, n))
  {
    hide Serve, Based;
    if n > 0 {
      ServedBased(o, qs, n - 1);
      ServedKeeps(o, qs, n - 1);
      hide OfficeInv, AllBased, GoodRequest, Blank;
      StepBased(Served(o, qs, n - 1), qs[n - 1]);
    }
  }

  // ---- The chain -------------------------------------------------------------------------------------------------------

  ghost predicate AllComputed(o: Office, c: Movements.Config, txs: seq<Movements.Tx>, accounts: seq<int>) {
    forall m :: ReadyAt(o.months, m) ==> Computed(c, txs, o.months[m].snapshot.value, accounts)
  }

  /** Every captured balance of the account, adjustments included, is in whole cents. */
  ghost predicate CapturedInCents(p: Profile, a: int) {
    forall n: nat :: n <= |p.baseline| ==> IsCents(AccountTotal(Baseline(p, n), a))
  }

  /** The snapshot shows, in whole cents, the first n captured rows and what moved since activation. */
  ghost predicate Shows(o: Office, c: Movements.Config, txs: seq<Movements.Tx>, m: int, a: int, n: nat)
    requires ReadyAt(o.months, m) && n <= |o.profile.baseline|
  {
    var s := o.months[m].snapshot.value;
    && o.profile.activation.Some? && o.profile.activation.value <= s.end
    && AccountTotal(OpenedBy(s.accounts), a)
       == AccountTotal(Baseline(o.profile, n), a) + DeltaBetween(c, txs, o.profile.activation.value + 1, s.end, a, |txs|)
    && IsCents(AccountTotal(OpenedBy(s.accounts), a))
  }

  lemma FirstShows(o: Office, c: Movements.Config, txs: seq<Movements.Tx>, accounts: seq<int>, m: int, i: nat) returns (n: nat)
    requires ReadyAt(o.months, m) && Based(o, m) && o.months[m].snapshot.value.previous.None?
    requires Resolvable(c, txs) && Computed(c, txs, o.months[m].snapshot.value, accounts)
    requires Distinct(accounts) && i < |accounts| && CapturedInCents(o.profile, accounts[i])
    ensures n <= |o.profile.baseline| && Shows(o, c, txs, m, accounts[i], n)
  {
    hide Baseline, Resolvable, Computed, OpenedBy, IsCents, AccountTotal, DeltaBetween;
    var s := o.months[m].snapshot.value;
    n :| 0 <= n <= |o.profile.baseline| && s.opening == Baseline(o.profile, n);
    SnapshotShows(c, txs, s, accounts, i);
  }

  lemma NextShows(o: Office, c: Movements.Config, txs: seq<Movements.Tx>, accounts: seq<int>, p: int, m: int, i: nat, n: nat)
    requires ReadyAt(o.months, m) && ReadyAt(o.months, p) && p < m && n <= |o.profile.baseline|
    requires var s, before := o.months[m].snapshot.value, o.months[p].snapshot.value;
             s.start == before.end + 1 && s.opening == OpenedBy(before.accounts) && before.end <= s.end
    requires Resolvable(c, txs) && Computed(c, txs, o.months[m].snapshot.value, accounts)
    requires Distinct(accounts) && i < |accounts| && Shows(o, c, txs, p, accounts[i], n)
    ensures Shows(o, c, txs, m, accounts[i], n)
  {
    hide Baseline, Resolvable, Computed, OpenedBy, IsCents, AccountTotal, DeltaBetween;
    var s := o.months[m].snapshot.value;
    SnapshotShows(c, txs, s, accounts, i);
    BetweenSplits(c, txs, o.profile.activation.value + 1, o.months[p].snapshot.value.end, s.end, accounts[i], |txs|);
  }

  lemma OpensAfter(months: map<int, Month>, m: int)
    requires MonthsOk(months) && ReadyAt(months, m) && months[m].snapshot.value.previous.Some?
    ensures var s := months[m].snapshot.value;
            var p := s.previous.value;
            && p < m && ReadyAt(months, p) && s.start == months[p].snapshot.value.end + 1
            && s.opening == OpenedBy(months[p].snapshot.value.accounts) && months[p].snapshot.value.end <= s.end
            && |ReadyBefore(months, p)| < |ReadyBefore(months, m)|
  {
    assert MonthOk(months, m);
    var p := months[m].snapshot.value.previous.value;
    assert MonthOk(months, p);
    hide MonthStart, MonthEnd, OpenedBy, LiquidityHeld, TotalsOk, MonthsOk;
    MonthsAreOrdered(p, m);
    StartBeforeEnd(m);
    assert ReadyBefore(months, p) < ReadyBefore(months, m) by {
      assert p in ReadyBefore(months, m) && p !in ReadyBefore(months, p);
    }
    CloseRuns.Smaller(ReadyBefore(months, p), ReadyBefore(months, m));
  }

  lemma {:induction false} ChainShows(o: Office, c: Movements.Config, txs: seq<Movements.Tx>, accounts: seq<int>, m: int, i: nat) returns (n: nat)
    requires MonthsOk(o.months) && AllBased(o) && Resolvable(c, txs) && AllComputed(o, c, txs, accounts)
    requires Distinct(accounts) && i < |accounts| && ReadyAt(o.months, m) && CapturedInCents(o.profile, accounts[i])
    ensures n <= |o.profile.baseline| && Shows(o, c, txs, m, accounts[i], n)
    decreases |ReadyBefore(o.months, m)|
  {
    hide MonthsOk, Resolvable, CapturedInCents, Shows, Based, Computed, ReadyBefore, OpenedBy, Distinct;
    if o.months[m].snapshot.value.previous.None? {
      n := FirstShows(o, c, txs, accounts, m, i);
    } else {
      OpensAfter(o.months, m);
      var p := o.months[m].snapshot.value.previous.value;
      n := ChainShows(o, c, txs, accounts, p, i);
      NextShows(o, c, txs, accounts, p, m, i, n);
    }
  }

  /** Whatever the run, in or out of month order, with reopens, re-baselines and other requests in between: as
      long as the READY settlements that stand were computed from the transactions of their periods, the balance
      any of them shows for an account, as the next close opens it, is the captured balance plus everything that
      moved on the account from the day after activation to the end of its month. */
  lemma BalanceSinceActivation(o: Office, qs: seq<Request>, c: Movements.Config, txs: seq<Movements.Tx>, accounts: seq<int>, m: int, i: nat)
    requires Blank(o) && forall j :: 0 <= j < |qs| ==> GoodRequest(qs[j])
    requires var now := Served(o, qs, |qs|);
             ReadyAt(now.months, m) && AllComputed(now, c, txs, accounts)
             && (i < |accounts| ==> CapturedInCents(now.profile, accounts[i]))
    requires Resolvable(c, txs) && Distinct(accounts) && i < |accounts|
    ensures var now := Served(o, qs, |qs|);
            exists n: nat :: n <= |now.profile.baseline| && Shows(now, c, txs, m, accounts[i], n)
  {
    var now := Served(o, qs, |qs|);
    ServedKeeps(o, qs, |qs|);
    ServedBased(o, qs, |qs|);
    hide Served, Blank, GoodRequest, AllBased, AllComputed, CapturedInCents, Resolvable, MonthsOk, RecsOk, Execution.Inv, Shows;
    var n := ChainShows(now, c, txs, accounts, m, i);
  }
}
