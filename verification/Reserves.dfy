/** Next month's reserves (`_compute_reserves`): which account each budgeted expense is set aside in, and why
    what they require fits the routing of transfers. */
module Reserves {
  import opened Money
  import opened Wrappers
  import opened FiniteSums
  import opened Allocation
  import opened Positions
  import Fx
  import opened Routing
  import opened TransferPlan
  import opened Targets

  datatype CashRole = OperatingCash | TemporaryCommitment | Savings | InvestmentSaving | InternalTransfer | OtherCash

  /** An individual ownership, a shared one split 50/50 by explicit percentages, or any other shared one. */
  datatype OwnerKind = Individual(member: int) | EqualSplit | OtherShared

  datatype Owner = Owner(id: int, kind: OwnerKind)

  /** A budgeted expense with its amount for the target month; `explicit` is its configured account, `linked`
      the account of its linked asset. */
  datatype Expense = Expense(amount: int, currency: string, role: CashRole, explicit: Option<int>, linked: Option<int>, owner: Option<Owner>)

  /** The configured accounts, which of them are bank accounts, who owns them, the allocations and rates of
      the target month, and the manual adjustment of the operating reserve. */
  datatype Setup = Setup(accounts: seq<Account>, banks: set<int>, owners: map<int, int>, vectors: int -> Option<seq<Weight>>,
                         rates: Fx.Pair -> Option<nat>, base: string, adjustment: int)

  function VectorOf(s: Setup, owner: int): Option<seq<Weight>> { s.vectors(owner) }

  predicate Configured(role: Role) { role.Operating? || role.PersonalDestination? || role.AllocationDestination? || role.Wallet? }

  ghost predicate SetupOk(s: Setup) {
    && DistinctAccounts(s.accounts)
    && (forall i :: 0 <= i < |s.accounts| ==> Configured(s.accounts[i].role))
    && (forall o :: VectorOf(s, o).Some? ==> ValidVector(VectorOf(s, o).value))
  }

  datatype Reserve = Reserve(account: int, amount: int, held: bool)

  datatype Report = Report(requirements: Position, rows: seq<Reserve>, blocked: bool)

  // ---- Where an expense is set aside ------------------------------------------------------------------------

  function At(s: Setup, id: int, n: nat): (i: Option<nat>)
    requires n <= |s.accounts|
    ensures i.Some? ==> i.value < n && s.accounts[i.value].id == id
    ensures i.None? ==> forall k :: 0 <= k < n ==> s.accounts[k].id != id
  {
    if n == 0 then None else if s.accounts[n - 1].id == id then Some(n - 1) else At(s, id, n - 1)
  }

  function Found(s: Setup, id: int): Option<nat> { At(s, id, |s.accounts|) }

  /** Indices of the accounts that pass a test. */
  function Those(s: Setup, keep: Account -> bool, n: nat): (found: seq<nat>)
    requires n <= |s.accounts|
    ensures forall k :: 0 <= k < |found| ==> found[k] < n && keep(s.accounts[found[k]])
  {
    if n == 0 then [] else
    Those(s, keep, n - 1) + if keep(s.accounts[n - 1]) then [n - 1] else []
  }

  function OnlyOne(found: seq<nat>): Option<nat> { if |found| == 1 then Some(found[0]) else None }

  function All(s: Setup, keep: Account -> bool): seq<nat> { Those(s, keep, |s.accounts|) }

  predicate ExpectsAllocation(role: CashRole) { role.Savings? || role.InvestmentSaving? }

  predicate OwnedBy(s: Setup, a: Account, owner: int) { a.id in s.owners && s.owners[a.id] == owner }

  /** `resolve_expense_settlement_destination`. */
  function DestinationOf(s: Setup, e: Expense): (d: Option<nat>)
    ensures d.Some? ==> d.value < |s.accounts|
  {
    if e.explicit.Some? then Found(s, e.explicit.value)
    else if e.linked.Some? then Found(s, e.linked.value)
    else if e.owner.Some? && e.owner.value.kind.EqualSplit? then
      var matching := All(s, (a: Account) => a.role.AllocationDestination? && OwnedBy(s, a, e.owner.value.id));
      if |matching| == 1 then Some(matching[0])
      else OnlyOne(All(s, (a: Account) => a.role.AllocationDestination? && OwnedBy(s, a, e.owner.value.id) && a.id in s.banks))
    else if e.owner.Some? && e.owner.value.kind.Individual? then
      OnlyOne(All(s, (a: Account) => a.role.PersonalDestination? && a.primary && a.member == Some(e.owner.value.kind.member)))
    else if !ExpectsAllocation(e.role) then OnlyOne(All(s, (a: Account) => a.role.Operating?))
    else None
  }

  lemma {:induction false} AllFound(s: Setup, keep: Account -> bool, i: nat, n: nat)
    requires i < n <= |s.accounts| && keep(s.accounts[i])
    ensures i in Those(s, keep, n)
  {
    if i < n - 1 { AllFound(s, keep, i, n - 1); }
  }

  predicate IsPersonalOf(a: Account, member: int) { a.role.PersonalDestination? && a.primary && a.member == Some(member) }

  /** Without a configured or linked account, a 50/50 shared expense is only ever set aside in an allocation
      account of the same owner, an individual one in the single primary account of its member, savings
      nowhere, and anything else in the single operating account. */
  lemma DefaultDestination(s: Setup, e: Expense, i: nat)
    requires e.explicit.None? && e.linked.None? && DestinationOf(s, e).Some? && i < |s.accounts|
    ensures var d := DestinationOf(s, e).value;
            var a := s.accounts[d];
            if e.owner.Some? && e.owner.value.kind.EqualSplit? then a.role.AllocationDestination? && OwnedBy(s, a, e.owner.value.id)
            else if e.owner.Some? && e.owner.value.kind.Individual? then
              IsPersonalOf(a, e.owner.value.kind.member) && (IsPersonalOf(s.accounts[i], e.owner.value.kind.member) ==> i == d)
            else !ExpectsAllocation(e.role) && a.role.Operating? && (s.accounts[i].role.Operating? ==> i == d)
  {
    if e.owner.Some? && e.owner.value.kind.Individual? {
      var keep := (a: Account) => a.role.PersonalDestination? && a.primary && a.member == Some(e.owner.value.kind.member);
      if keep(s.accounts[i]) { AllFound(s, keep, i, |s.accounts|); }
    } else {
      var keep := (a: Account) => a.role.Operating?;
      if keep(s.accounts[i]) { AllFound(s, keep, i, |s.accounts|); }
    }
  }

  /** `is_expense_settlement_destination_compatible`. */
  predicate Compatible(s: Setup, e: Expense, a: Account) {
    if e.owner.Some? && e.owner.value.kind.Individual? && a.role.PersonalDestination? && a.primary && a.member == Some(e.owner.value.kind.member)
    then true
    else if e.role.TemporaryCommitment? then
      if e.owner.Some? && e.owner.value.kind.EqualSplit? then
        a.role.Operating? || (a.role.AllocationDestination? && OwnedBy(s, a, e.owner.value.id))
      else a.role.Operating? || a.role.AllocationDestination?
    else if ExpectsAllocation(e.role) then a.role.AllocationDestination?
    else a.role.Operating?
  }

  // ---- One expense --------------------------------------------------------------------------------------------

  /** The owner whose split funds the reserve: the account's, or else the expense's. */
  function FundedBy(s: Setup, e: Expense, a: Account): Option<int> {
    if a.id in s.owners then Some(s.owners[a.id]) else if e.owner.Some? then Some(e.owner.value.id) else None
  }

  /** A commitment kept in an allocation account is already there: nothing more is required. */
  predicate HeldThere(e: Expense, a: Account) { e.role.TemporaryCommitment? && a.role.AllocationDestination? }

  function ReserveFor(s: Setup, r: Report, e: Expense): Report {
    if e.amount <= 0 || e.role.InternalTransfer? || e.role.OtherCash? then r else
    var d := DestinationOf(s, e);
    if d.None? then (if ExpectsAllocation(e.role) then r else r.(blocked := true)) else
    var a := s.accounts[d.value];
    if !Compatible(s, e, a) then r.(blocked := true) else
    var owner := FundedBy(s, e, a);
    if owner.None? then r else
    var vector := VectorOf(s, owner.value);
    if vector.None? then r.(blocked := true) else
    var converted := Fx.Convert(e.amount, e.currency, s.base, "USD", s.rates, false);
    if converted.Err? then r.(blocked := true) else
    SetAside(r, a.id, converted.value, vector.value, HeldThere(e, a))
  }

  function SetAside(r: Report, account: int, amount: int, vector: seq<Weight>, held: bool): Report {
    var shares := Allocated(amount, vector, CENT);
    Report(if held then r.requirements else AddShares(r.requirements, account, shares, |shares|),
           r.rows + [Reserve(account, amount, held)], r.blocked)
  }

  function ReservesTo(s: Setup, expenses: seq<Expense>, n: nat): Report
    requires n <= |expenses|
  {
    if n == 0 then Report(map[], [], false) else ReserveFor(s, ReservesTo(s, expenses, n - 1), expenses[n - 1])
  }

  /** The manual adjustment goes to the operating account when there is just one. */
  function Adjusted(s: Setup, r: Report): Report {
    var operating := OnlyOne(All(s, (a: Account) => a.role.Operating?));
    var adjustment := ToCents(s.adjustment);
    if adjustment == 0 || operating.None? then r else
    var a := s.accounts[operating.value];
    if a.id !in s.owners then r else
    var vector := VectorOf(s, s.owners[a.id]);
    if vector.None? then r.(blocked := true) else SetAside(r, a.id, adjustment, vector.value, false)
  }

  function ReservesOf(s: Setup, expenses: seq<Expense>): Report { Adjusted(s, ReservesTo(s, expenses, |expenses|)) }

  method ComputeReserves(s: Setup, expenses: seq<Expense>) returns (requirements: Position, rows: seq<Reserve>, blocked: bool)
    requires SetupOk(s)
    ensures Report(requirements, rows, blocked) == ReservesOf(s, expenses)
  {
    requirements, rows, blocked := map[], [], false;
    hide SetAside, DestinationOf, Compatible, ToCents;
    for i := 0 to |expenses|
      invariant Report(requirements, rows, blocked) == ReservesTo(s, expenses, i)
    {
      var e := expenses[i];
      if e.amount <= 0 || e.role.InternalTransfer? || e.role.OtherCash? { continue; }
      var d := DestinationOf(s, e);
      if d.None? {
        if !ExpectsAllocation(e.role) { blocked := true; }
        continue;
      }
      var a := s.accounts[d.value];
      if !Compatible(s, e, a) { blocked := true; continue; }
      var owner := FundedBy(s, e, a);
      if owner.None? { continue; }
      var vector := VectorOf(s, owner.value);
      if vector.None? { blocked := true; continue; }
      var converted := Fx.Convert(e.amount, e.currency, s.base, "USD", s.rates, false);
      if converted.Err? { blocked := true; continue; }
      requirements, rows := Require(requirements, rows, a.id, converted.value, vector.value, HeldThere(e, a), blocked);
    }
    var operating := OnlyOne(All(s, (a: Account) => a.role.Operating?));
    var adjustment := ToCents(s.adjustment);
    if adjustment != 0 && operating.Some? && s.accounts[operating.value].id in s.owners {
      var a := s.accounts[operating.value].id;
      var vector := VectorOf(s, s.owners[a]);
      if vector.None? {
        blocked := true;
      } else {
        requirements, rows := Require(requirements, rows, a, adjustment, vector.value, false, blocked);
      }
    }
  }

  method Require(before: Position, listed: seq<Reserve>, account: int, amount: int, vector: seq<Weight>, held: bool, ghost blocked: bool)
    returns (requirements: Position, rows: seq<Reserve>)
    requires ValidVector(vector)
    ensures Report(requirements, rows, blocked) == SetAside(Report(before, listed, blocked), account, amount, vector, held)
  {
    requirements := before;
    var shares := Allocate(amount, vector, CENT);
    hide Allocated;
    if !held {
      for j := 0 to |shares|
        invariant requirements == AddShares(before, account, shares, j)
      {
        requirements := Plus(requirements, (account, shares[j].member), shares[j].amount);
      }
    }
    rows := listed + [Reserve(account, amount, held)];
  }

  // ---- What the reserves require ------------------------------------------------------------------------------

  /** What is set aside on an account by the first n rows, held commitments apart. */
  function TopUps(rows: seq<Reserve>, account: int, n: nat): int
    requires n <= |rows|
  {
    if n == 0 then 0 else
    TopUps(rows, account, n - 1) + if rows[n - 1].account == account && !rows[n - 1].held then rows[n - 1].amount else 0
  }

  lemma {:induction false} TopUpsAppended(rows: seq<Reserve>, row: Reserve, account: int, n: nat)
    requires n <= |rows|
    ensures TopUps(rows + [row], account, n) == TopUps(rows, account, n)
  {
    if n > 0 { TopUpsAppended(rows, row, account, n - 1); }
  }

  predicate MayReserve(role: Role) { role.Operating? || role.PersonalDestination? || role.AllocationDestination? }

  /** A reserve sits on a configured account that may hold one, and only the operating account can have a
      negative one. */
  ghost predicate RowOk(s: Setup, row: Reserve) {
    exists i :: 0 <= i < |s.accounts| && s.accounts[i].id == row.account && MayReserve(s.accounts[i].role)
                && (row.amount >= 0 || s.accounts[i].role.Operating?)
  }

  ghost predicate ReportOk(s: Setup, r: Report) {
    && (forall a :: AccountTotal(r.requirements, a) == TopUps(r.rows, a, |r.rows|))
    && CentPosition(r.requirements)
    && (forall k :: k in r.requirements ==> Found(s, k.0).Some? && MayReserve(s.accounts[Found(s, k.0).value].role))
    && (forall i :: 0 <= i < |r.rows| ==> RowOk(s, r.rows[i]))
  }

  lemma {:induction false} AddSharesKeys(p: Position, account: int, shares: seq<Share>, n: nat)
    requires n <= |shares| && CentPosition(p) && AllCents(shares)
    ensures CentPosition(AddShares(p, account, shares, n))
    ensures forall k :: k in AddShares(p, account, shares, n) ==> k in p || k.0 == account
  {
    if n > 0 {
      AddSharesKeys(p, account, shares, n - 1);
      var before := AddShares(p, account, shares, n - 1);
      var k := (account, shares[n - 1].member);
      assert IsCents(0);
      CentsAdd(Get(before, k), shares[n - 1].amount);
      hide IsCents, AddShares;
    }
  }

  lemma SetAsideOk(s: Setup, r: Report, i: nat, amount: int, vector: seq<Weight>, held: bool)
    requires SetupOk(s) && ReportOk(s, r) && i < |s.accounts| && MayReserve(s.accounts[i].role) && ValidVector(vector) && IsCents(amount)
    requires amount >= 0 || s.accounts[i].role.Operating?
    ensures ReportOk(s, SetAside(r, s.accounts[i].id, amount, vector, held))
  {
    var account := s.accounts[i].id;
    var row := Reserve(account, amount, held);
    var shares := Allocated(amount, vector, CENT);
    var after := SetAside(r, account, amount, vector, held);
    AllocatedSum(amount, vector, CENT);
    AllocatedCents(amount, vector);
    hide Allocated;
    AddSharesKeys(r.requirements, account, shares, |shares|);
    forall a ensures AccountTotal(after.requirements, a) == TopUps(after.rows, a, |after.rows|) {
      AddSharesAccount(r.requirements, account, shares, |shares|, a);
      TopUpsAppended(r.rows, row, a, |r.rows|);
      hide AccountTotal, AddShares, Allocation.SumTo;
    }
    assert RowOk(s, row);
    assert Found(s, account) == Some(i);
    hide RowOk, IsCents, TopUps, AccountTotal, AddShares, Found, SetupOk;
  }

  /** Converting a non-negative amount gives a non-negative one. */
  lemma ConvertedSign(amount: int, from: string, to: string, pivot: string, rates: Fx.Pair -> Option<nat>)
    requires amount >= 0 && Fx.Convert(amount, from, to, pivot, rates, false).Ok?
    ensures Fx.Convert(amount, from, to, pivot, rates, false).value >= 0
  {
    if from == to {
      RoundHalfUpSign(amount, CENT);
    } else if rates((from, to)).Some? {
      ScaledSign(amount, rates((from, to)).value, Fx.ONE);
    } else if rates((to, from)).Some? {
      ScaledSign(amount, Fx.ONE, rates((to, from)).value);
    } else {
      var leg1 := Fx.Leg(rates((from, pivot)), rates((pivot, from)), false);
      var leg2 := Fx.Leg(rates((pivot, to)), rates((to, pivot)), false);
      Fx.ProductPositive(leg1.value.den, leg2.value.den);
      ProductOfNats(leg1.value.num, leg2.value.num);
      ScaledSign(amount, leg1.value.num * leg2.value.num, leg1.value.den * leg2.value.den);
    }
    hide RoundHalfUp, QuotientToCents;
  }

  lemma ProductOfNats(a: nat, b: nat)
    ensures a * b >= 0
  {
  }

  lemma ScaledSign(amount: int, num: int, den: int)
    requires amount >= 0 && num >= 0 && den > 0
    ensures QuotientToCents(amount * num, den) >= 0
  {
    ProductOfNats(amount, num);
    RoundHalfUpSign(amount * num, den * CENT);
    hide RoundHalfUp;
  }

  lemma ReserveForOk(s: Setup, r: Report, e: Expense)
    requires SetupOk(s) && ReportOk(s, r)
    ensures ReportOk(s, ReserveFor(s, r, e))
  {
    var d := DestinationOf(s, e);
    if e.amount > 0 && d.Some? && Compatible(s, e, s.accounts[d.value]) {
      var a := s.accounts[d.value];
      var owner := FundedBy(s, e, a);
      var converted := Fx.Convert(e.amount, e.currency, s.base, "USD", s.rates, false);
      if owner.Some? && VectorOf(s, owner.value).Some? && converted.Ok? {
        ConvertedSign(e.amount, e.currency, s.base, "USD", s.rates);
        assert ValidVector(VectorOf(s, owner.value).value);
        hide SetupOk, ReportOk, SetAside, DestinationOf;
        SetAsideOk(s, r, d.value, converted.value, VectorOf(s, owner.value).value, HeldThere(e, a));
      }
    }
    hide AccountTotal, CentPosition, RowOk, SetAside, DestinationOf, Compatible, Found;
  }

  lemma {:induction false} ReservesToOk(s: Setup, expenses: seq<Expense>, n: nat)
    requires SetupOk(s) && n <= |expenses|
    ensures ReportOk(s, ReservesTo(s, expenses, n))
  {
    if n == 0 {
      forall a ensures AccountTotal(map[], a) == 0 { assert AccountPart(map[], a) == map[]; }
    } else {
      hide SetupOk, ReportOk, ReserveFor;
      ReservesToOk(s, expenses, n - 1);
      ReserveForOk(s, ReservesTo(s, expenses, n - 1), expenses[n - 1]);
    }
  }

  /** The reserves of a month: what an account is required to hold for all members is what was set aside on
      it and not already held there; everything is in cents; and nothing is ever reserved on a wallet. */
  lemma ReservesAddUp(s: Setup, expenses: seq<Expense>)
    requires SetupOk(s)
    ensures ReportOk(s, ReservesOf(s, expenses))
  {
    var r := ReservesTo(s, expenses, |expenses|);
    ReservesToOk(s, expenses, |expenses|);
    var operating := OnlyOne(All(s, (a: Account) => a.role.Operating?));
    if operating.Some? && s.accounts[operating.value].id in s.owners && VectorOf(s, s.owners[s.accounts[operating.value].id]).Some? {
      var vector := VectorOf(s, s.owners[s.accounts[operating.value].id]).value;
      assert ValidVector(vector);
      hide SetupOk, ReportOk, SetAside, ReservesTo, All;
      SetAsideOk(s, r, operating.value, ToCents(s.adjustment), vector, false);
    }
    hide AccountTotal, CentPosition, RowOk, SetAside, Found, ReservesTo, All, ToCents;
  }

  // ---- They fit the routing -----------------------------------------------------------------------------------

  lemma {:induction false} TopUpsOnAllocation(s: Setup, rows: seq<Reserve>, i: nat, n: nat)
    requires SetupOk(s) && n <= |rows| && i < |s.accounts| && !s.accounts[i].role.Operating?
    requires forall k :: 0 <= k < |rows| ==> RowOk(s, rows[k])
    ensures TopUps(rows, s.accounts[i].id, n) >= 0
    ensures !MayReserve(s.accounts[i].role) ==> TopUps(rows, s.accounts[i].id, n) == 0
  {
    if n > 0 {
      TopUpsOnAllocation(s, rows, i, n - 1);
      assert RowOk(s, rows[n - 1]);
    }
  }

  lemma {:induction false} TopUpsElsewhere(s: Setup, rows: seq<Reserve>, a: int, n: nat)
    requires n <= |rows| && Found(s, a).None? && forall k :: 0 <= k < |rows| ==> RowOk(s, rows[k])
    ensures TopUps(rows, a, n) == 0
  {
    if n > 0 {
      TopUpsElsewhere(s, rows, a, n - 1);
      assert RowOk(s, rows[n - 1]);
    }
  }

  /** The participants: the configured accounts first, then cards and investment positions. */
  ghost predicate Participants(s: Setup, accounts: seq<Account>) {
    && DistinctAccounts(accounts) && s.accounts <= accounts
    && forall i :: |s.accounts| <= i < |accounts| ==>
         accounts[i].role.CreditCard? || accounts[i].role.InvestmentPosition? || accounts[i].role.InvestmentCash?
  }

  /** The conditions routing puts on requirements hold of every computed set of reserves. */
  lemma ReservesFitRouting(s: Setup, expenses: seq<Expense>, accounts: seq<Account>)
    requires SetupOk(s) && Participants(s, accounts)
    ensures var requirements := ReservesOf(s, expenses).requirements;
            && Within(requirements, accounts) && CentPosition(requirements)
            && forall i :: 0 <= i < |accounts| && Retained(accounts[i].role) ==>
                 if accounts[i].role.AllocationDestination? then AccountTotal(requirements, accounts[i].id) >= 0
                 else AccountTotal(requirements, accounts[i].id) == 0
  {
    ReservesAddUp(s, expenses);
    var r := ReservesOf(s, expenses);
    hide ReservesOf, CentPosition, AccountTotal;
    forall i | 0 <= i < |accounts| && Retained(accounts[i].role)
      ensures if accounts[i].role.AllocationDestination? then AccountTotal(r.requirements, accounts[i].id) >= 0
              else AccountTotal(r.requirements, accounts[i].id) == 0
    {
      assert AccountTotal(r.requirements, accounts[i].id) == TopUps(r.rows, accounts[i].id, |r.rows|);
      if i < |s.accounts| {
        assert s.accounts[i] == accounts[i];
        TopUpsOnAllocation(s, r.rows, i, |r.rows|);
      } else {
        assert Found(s, accounts[i].id).None?;
        TopUpsElsewhere(s, r.rows, accounts[i].id, |r.rows|);
      }
      hide TopUps, RowOk;
    }
    forall k | k in r.requirements ensures IsAccount(accounts, k.0) {
      var at := Found(s, k.0).value;
      assert accounts[at] == s.accounts[at] && accounts[at].id == k.0;
    }
  }

  /** End to end from the budget: with the reserves as computed, positions in cents on participants that all
      have an owner, and every member with a position to keep, a reserve or an economic total placed on a
      primary account, executing the routed transfers leaves every account on target exactly when the
      physical total is the economic total. */
  lemma BudgetReachesTargets(s: Setup, expenses: seq<Expense>, accounts: seq<Account>, current: Position, totals: map<int, int>,
                             ownerships: map<int, int>)
    requires SetupOk(s) && Participants(s, accounts)
    requires Within(current, accounts) && CentPosition(current) && CentMap(totals)
    requires forall i :: 0 <= i < |accounts| ==> accounts[i].id in ownerships
    requires Placed(BaseTargets(accounts, current, ReservesOf(s, expenses).requirements), totals, PrimaryOf(accounts, |accounts|))
    ensures var requirements := ReservesOf(s, expenses).requirements;
            && ReadyToRoute(accounts, current, requirements, totals, ownerships)
            && var targets := TargetsOf(accounts, current, requirements, totals);
               var rows := Transfers(accounts, current, requirements, totals, ownerships);
               Total(current) == Total(totals) <==>
               forall i :: 0 <= i < |accounts| ==>
                 AccountTotal(current, accounts[i].id) + Effect(rows, accounts[i].id) == AccountTotal(targets, accounts[i].id)
  {
    ReservesFitRouting(s, expenses, accounts);
    hide ReservesOf, Placed, CentPosition, AccountTotal, Within, CentMap;
    assert ReadyToRoute(accounts, current, ReservesOf(s, expenses).requirements, totals, ownerships);
    hide ReadyToRoute, TargetsOf, Transfers, Effect;
    SettlementReachesTargets(accounts, current, ReservesOf(s, expenses).requirements, totals, ownerships);
  }
}
