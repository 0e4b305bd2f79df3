/** From recommendations to frozen rows: whatever either branch recommends can be frozen with a close and
    executed, so the execution invariant covers it. */
module Freezing {
  import opened Money
  import opened Wrappers
  import opened FiniteSums
  import opened Routing
  import opened TransferPlan
  import opened DirectFund
  import opened Targets
  import Execution
  import MonthlyClose
  import OfficeRuns

  /** The rows `freeze_monthly_close_settlement` stores.  Routing works on settlement accounts; `ledgerOf` is the
      ledger account of the asset behind each, on which executions post. */
  function Frozen(rows: seq<Routing.Row>, ledgerOf: int -> int): seq<MonthlyClose.Row> {
    seq(|rows|, i requires 0 <= i < |rows| =>
      MonthlyClose.Row(ledgerOf(rows[i].from), ledgerOf(rows[i].to), Some(rows[i].ownership), rows[i].amount))
  }

  /** An asset is configured once, and no ledger account is linked to two assets. */
  ghost predicate OneEach(ledgerOf: int -> int) { forall a, b :: ledgerOf(a) == ledgerOf(b) ==> a == b }

  predicate Executable(r: Routing.Row) { r.amount > 0 && IsCents(r.amount) && r.from != r.to }

  predicate AllExecutable(rows: seq<Routing.Row>) { forall i :: 0 <= i < |rows| ==> Executable(rows[i]) }

  predicate CentSlots(s: seq<Slot>) { forall i :: 0 <= i < |s| ==> IsCents(s[i].amount) }

  predicate CentDeficits(d: seq<Deficit>) { forall j :: 0 <= j < |d| ==> IsCents(d[j].amount) && CentSlots(d[j].members) }

  predicate Apart(s: seq<Slot>, d: seq<Deficit>) { forall i, j :: 0 <= i < |s| && 0 <= j < |d| ==> s[i].id != d[j].account }

  /** A walk in whole cents over sources and destinations that have no account in common. */
  predicate CleanWalk(w: Walk) { CentSlots(w.surplus) && CentDeficits(w.deficit) && Apart(w.surplus, w.deficit) && AllExecutable(w.rows) }

  lemma {:induction false} SlotsInCents(s: seq<Slot>, n: nat)
    requires CentSlots(s) && n <= |s|
    ensures IsCents(SumSlots(s, n))
  {
    if n == 0 {
      assert IsCents(0);
    } else {
      SlotsInCents(s, n - 1);
      CentsAdd(SumSlots(s, n - 1), s[n - 1].amount);
      hide IsCents;
    }
  }

  lemma RoutedInCents(amount: int, members: seq<Slot>, k: nat)
    requires IsCents(amount) && CentSlots(members) && k <= |members|
    ensures IsCents(Remaining(amount, members, k)) && (k < |members| ==> IsCents(Routed(amount, members, k)))
  {
    assert IsCents(0);
    SlotsInCents(members, k);
    hide IsCents;
    CentsAdd(amount, SumSlots(members, k));
  }

  lemma {:induction false} EmitExecutable(rows: seq<Routing.Row>, from: int, d: Deficit, amount: int, k: nat)
    requires AllExecutable(rows) && IsCents(amount) && CentSlots(d.members) && from != d.account && k <= |d.members|
    ensures AllExecutable(Emit(rows, from, d, amount, k))
  {
    if k > 0 {
      EmitExecutable(rows, from, d, amount, k - 1);
      RoutedInCents(amount, d.members, k - 1);
      hide IsCents, Routed;
    }
  }

  lemma EmitAllExecutable(rows: seq<Routing.Row>, from: int, d: Deficit, amount: int)
    requires AllExecutable(rows) && IsCents(amount) && CentSlots(d.members) && from != d.account
    ensures AllExecutable(EmitAll(rows, from, d, amount))
  {
    EmitExecutable(rows, from, d, amount, |d.members|);
    RoutedInCents(amount, d.members, |d.members|);
    hide Emit, Remaining, IsCents;
  }

  lemma ServedInCents(amount: int, members: seq<Slot>)
    requires IsCents(amount) && CentSlots(members)
    ensures CentSlots(Routing.Served(amount, members))
  {
    hide IsCents, Routed;
    forall k | 0 <= k < |members| ensures IsCents(members[k].amount - Routed(amount, members, k)) {
      RoutedInCents(amount, members, k);
      CentsAdd(members[k].amount, Routed(amount, members, k));
    }
  }

  lemma MeetClean(w: Walk)
    requires More(w) && CleanWalk(w)
    ensures CleanWalk(Meet(w))
  {
    var source, d := w.surplus[w.si], w.deficit[w.di];
    var amount := Min(source.amount, d.amount);
    assert IsCents(amount);
    CentsAdd(source.amount, amount);
    CentsAdd(d.amount, amount);
    hide IsCents;
    ServedInCents(amount, d.members);
    EmitAllExecutable(w.rows, source.id, d, amount);
    hide EmitAll, Routing.Served, AllExecutable;
  }

  lemma {:induction false} FinishClean(w: Walk)
    requires w.si <= |w.surplus| && w.di <= |w.deficit| && CleanWalk(w)
    ensures AllExecutable(Finish(w).rows)
    decreases |w.surplus| - w.si + |w.deficit| - w.di
  {
    if More(w) {
      MeetClean(w);
      assert Meet(w).si > w.si || Meet(w).di > w.di;
      hide Meet, CleanWalk, AllExecutable;
      FinishClean(Meet(w));
    }
  }

  // ---- The routed branch ------------------------------------------------------------------------------------

  /** An account above its target; one below it. */
  ghost predicate Source(accounts: seq<Account>, nets: seq<int>, id: int)
    requires |accounts| == |nets|
  {
    exists i :: 0 <= i < |accounts| && accounts[i].id == id && nets[i] > 0
  }

  ghost predicate Destination(accounts: seq<Account>, nets: seq<int>, id: int)
    requires |accounts| == |nets|
  {
    exists i :: 0 <= i < |accounts| && accounts[i].id == id && nets[i] < 0
  }

  lemma SidesDiffer(accounts: seq<Account>, nets: seq<int>, a: int, b: int)
    requires |accounts| == |nets| && DistinctAccounts(accounts) && Source(accounts, nets, a) && Destination(accounts, nets, b)
    ensures a != b
  {
    var i :| 0 <= i < |accounts| && accounts[i].id == a && nets[i] > 0;
    var j :| 0 <= j < |accounts| && accounts[j].id == b && nets[j] < 0;
    assert i < j || j < i;
  }

  lemma {:induction false} SourcesOf(accounts: seq<Account>, nets: seq<int>, n: nat)
    requires n <= |accounts| == |nets| && forall i :: 0 <= i < |nets| ==> IsCents(nets[i])
    ensures var s := SurplusList(accounts, nets, n);
            CentSlots(s) && forall k :: 0 <= k < |s| ==> Source(accounts, nets, s[k].id)
  {
    if n > 0 {
      SourcesOf(accounts, nets, n - 1);
      assert nets[n - 1] > 0 ==> Source(accounts, nets, accounts[n - 1].id);
      hide IsCents, Source;
    }
  }

  lemma {:induction false} DestinationsOf(accounts: seq<Account>, nets: seq<int>, needs: seq<seq<Slot>>, ownerships: map<int, int>, n: nat)
    requires Routable(accounts, nets, needs, ownerships) && n <= |accounts|
    requires (forall i :: 0 <= i < |nets| ==> IsCents(nets[i])) && forall i :: 0 <= i < |needs| ==> CentSlots(needs[i])
    ensures var d := DeficitList(accounts, nets, needs, ownerships, n);
            CentDeficits(d) && forall k :: 0 <= k < |d| ==> Destination(accounts, nets, d[k].account)
  {
    if n > 0 {
      DestinationsOf(accounts, nets, needs, ownerships, n - 1);
      assert nets[n - 1] < 0 ==> Destination(accounts, nets, accounts[n - 1].id);
      assert IsCents(0);
      CentsAdd(0, nets[n - 1]);
      hide IsCents, CentSlots, Destination, Routable;
    }
  }

  /** Every row of a plan in whole cents moves a positive number of cents between different accounts. */
  lemma PlanExecutable(accounts: seq<Account>, nets: seq<int>, needs: seq<seq<Slot>>, ownerships: map<int, int>)
    requires Routable(accounts, nets, needs, ownerships)
    requires (forall i :: 0 <= i < |nets| ==> IsCents(nets[i])) && forall i :: 0 <= i < |needs| ==> CentSlots(needs[i])
    ensures AllExecutable(PlanRows(accounts, nets, needs, ownerships))
  {
    SourcesOf(accounts, nets, |accounts|);
    DestinationsOf(accounts, nets, needs, ownerships, |accounts|);
    hide SurplusList, DeficitList, CentSlots, CentDeficits, IsCents, Finish, Source, Destination;
    var w := Plan(accounts, nets, needs, ownerships);
    forall i, j | 0 <= i < |w.surplus| && 0 <= j < |w.deficit| ensures w.surplus[i].id != w.deficit[j].account {
      SidesDiffer(accounts, nets, w.surplus[i].id, w.deficit[j].account);
    }
    FinishClean(w);
  }

  lemma {:induction false} NeedsInCents(current: Position, targets: Position, a: int, members: seq<int>, n: nat)
    requires n <= |members|
    ensures CentSlots(NeedsOf(current, targets, a, members, n))
  {
    hide ToCents, IsCents;
    if n > 0 { NeedsInCents(current, targets, a, members, n - 1); }
  }

  /** Whatever the routed settlement recommends can be frozen and executed. */
  lemma TransfersExecutable(accounts: seq<Account>, current: Position, requirements: Position, totals: map<int, int>, ownerships: map<int, int>)
    requires ReadyToRoute(accounts, current, requirements, totals, ownerships)
    ensures AllExecutable(Transfers(accounts, current, requirements, totals, ownerships))
  {
    ArrangedIsRoutable(accounts, current, requirements, totals, ownerships);
    var targets := TargetsOf(accounts, current, requirements, totals);
    var nets, needs := Nets(accounts, current, targets), AllNeeds(accounts, current, targets);
    forall i | 0 <= i < |needs| ensures CentSlots(needs[i]) {
      var members := Sorted(MembersAt(targets, accounts[i].id));
      NeedsInCents(current, targets, accounts[i].id, members, |members|);
    }
    forall i | 0 <= i < |nets| ensures IsCents(nets[i]) {}
    hide ReadyToRoute, TargetsOf, Nets, AllNeeds, PlanRows, CentSlots, IsCents, AllExecutable, Routable;
    PlanExecutable(accounts, nets, needs, ownerships);
  }

  // ---- The direct branch ------------------------------------------------------------------------------------

  lemma {:induction false} DirectExecutable(f: Fund, members: seq<int>, n: nat)
    requires Hosted(f) && n <= |members|
    ensures AllExecutable(DirectRows(f, members, n))
  {
    if n > 0 {
      DirectExecutable(f, members, n - 1);
      assert IsCents(0);
      CentsAdd(0, Delta(f, members[n - 1]));
      hide IsCents, Available, ToCents;
    }
  }

  // ---- Freezing ---------------------------------------------------------------------------------------------

  /** A close finalized with rows of either branch is a request the execution invariant holds for: with
      `MonthlyClose.ServedKeeps` its recommendations keep it over every later run. */
  lemma FrozenRowsAreGood(rows: seq<Routing.Row>, ledgerOf: int -> int, m: int, r: MonthlyClose.Report)
    requires AllExecutable(rows) && OneEach(ledgerOf) && r.rows == Frozen(rows, ledgerOf)
    ensures MonthlyClose.GoodRequest(MonthlyClose.Finalize(m, r))
  {
    hide IsCents;
    forall i | 0 <= i < |r.rows| ensures MonthlyClose.GoodRow(r.rows[i]) {
      assert Executable(rows[i]);
    }
  }

  lemma {:induction false} FrozenMoves(rows: seq<Routing.Row>, ledgerOf: int -> int, a: int, n: nat)
    requires OneEach(ledgerOf) && n <= |rows|
    ensures OfficeRuns.RowsMove(Frozen(rows, ledgerOf), ledgerOf(a), n)
            == Routing.SumTo(rows, InTo(a), n) - Routing.SumTo(rows, OutOf(a), n)
  {
    if n > 0 { FrozenMoves(rows, ledgerOf, a, n - 1); }
  }

  /** On the ledger account of a settlement account the frozen rows move what executing the recommended ones adds
      to it: with `OfficeRuns.ClosePaysOut`, applying all of them at the bank is executing the settlement. */
  lemma FrozenEffect(rows: seq<Routing.Row>, ledgerOf: int -> int, a: int)
    requires OneEach(ledgerOf)
    ensures OfficeRuns.RowsMove(Frozen(rows, ledgerOf), ledgerOf(a), |rows|) == Effect(rows, a)
  {
    FrozenMoves(rows, ledgerOf, a, |rows|);
  }

  /** A routed settlement is a good one to freeze. */
  lemma RoutedCloseIsGood(accounts: seq<Account>, current: Position, requirements: Position, totals: map<int, int>, ownerships: map<int, int>,
                          ledgerOf: int -> int, m: int, r: MonthlyClose.Report)
    requires ReadyToRoute(accounts, current, requirements, totals, ownerships) && OneEach(ledgerOf)
    requires r.rows == Frozen(Transfers(accounts, current, requirements, totals, ownerships), ledgerOf)
    ensures MonthlyClose.GoodRequest(MonthlyClose.Finalize(m, r))
  {
    hide Arranged, Transfers, AllExecutable, OneEach, MonthlyClose.GoodRequest;
    TransfersExecutable(accounts, current, requirements, totals, ownerships);
    FrozenRowsAreGood(Transfers(accounts, current, requirements, totals, ownerships), ledgerOf, m, r);
  }

  /** Settled at the bank: when a close was finalized with the rows a settlement recommends, and under the conditions of
      `OfficeRuns.ClosePaysOut`, the linked transactions add to the ledger account of every settlement account exactly
      what executing the recommendations adds to it. */
  lemma SettledAtTheBank(o: MonthlyClose.Office, qs: seq<MonthlyClose.Request>, k: nat, date: int,
                         rows: seq<Routing.Row>, ledgerOf: int -> int, a: int)
    requires MonthlyClose.Blank(o) && (forall i :: 0 <= i < |qs| ==> MonthlyClose.GoodRequest(qs[i]) && OfficeRuns.PlainRequest(qs[i]))
    requires k < |qs| && qs[k].Finalize? && OneEach(ledgerOf) && qs[k].report.rows == Frozen(rows, ledgerOf)
    requires var here, m := MonthlyClose.Served(o, qs, k), qs[k].month;
             MonthlyClose.FinalizeStep(here, m, qs[k].report).1
             && MonthlyClose.ReadyAt(MonthlyClose.FinalizeStep(here, m, qs[k].report).0.months, m)
    requires var now, pay := MonthlyClose.Served(o, qs, |qs|), MonthlyClose.Execute(Execution.ApplyAll(qs[k].month, date));
             && MonthlyClose.Serve(now, pay).1
             && OfficeRuns.AllStand(now, MonthlyClose.Served(o, qs, k).next, |rows|)
             && OfficeRuns.AllPlain(MonthlyClose.Serve(now, pay).0.ledger, MonthlyClose.Served(o, qs, k).next, |rows|)
    ensures var now, pay := MonthlyClose.Served(o, qs, |qs|), MonthlyClose.Execute(Execution.ApplyAll(qs[k].month, date));
            OfficeRuns.LinkedMove(MonthlyClose.Serve(now, pay).0.ledger, MonthlyClose.Served(o, qs, k).next, ledgerOf(a), |rows|)
            == Effect(rows, a)
  {
    assert |Frozen(rows, ledgerOf)| == |rows|;
    hide *;
    OfficeRuns.ClosePaysOut(o, qs, k, date, ledgerOf(a));
    FrozenEffect(rows, ledgerOf, a);
  }
}
