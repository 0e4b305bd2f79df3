/** Target positions and recommendations of a close (`compute_monthly_close_settlement`). */
module Targets {
  import opened Money
  import opened Wrappers
  import opened FiniteSums
  import opened Routing
  import opened TransferPlan

  // ---- Primary personal accounts -------------------------------------------------------------------

  function IsPrimary(a: Account): bool { a.role.PersonalDestination? && a.primary && a.member.Some? }

  /** `primary_personal`: member to the account that absorbs its residual. */
  function PrimaryOf(accounts: seq<Account>, n: nat): map<int, int>
    requires n <= |accounts|
  {
    if n == 0 then map[] else
    var before := PrimaryOf(accounts, n - 1);
    if IsPrimary(accounts[n - 1]) then before[accounts[n - 1].member.value := accounts[n - 1].id] else before
  }

  ghost predicate HasRole(accounts: seq<Account>, a: int, role: Role) {
    exists i :: 0 <= i < |accounts| && accounts[i].id == a && accounts[i].role == role
  }

  lemma {:induction false} PrimaryIsPersonal(accounts: seq<Account>, n: nat, m: int)
    requires n <= |accounts| && m in PrimaryOf(accounts, n)
    ensures HasRole(accounts, PrimaryOf(accounts, n)[m], PersonalDestination)
  {
    if IsPrimary(accounts[n - 1]) && accounts[n - 1].member == Some(m) {
      assert accounts[n - 1].role == PersonalDestination;
    } else {
      PrimaryIsPersonal(accounts, n - 1, m);
    }
  }

  // ---- Targets when no operating account funds a card ------------------------------------------------

  /** Roles whose balance stays where it is. */
  predicate Retained(role: Role) {
    role.Wallet? || role.AllocationDestination? || role.CreditCard? || role.InvestmentPosition? || role.InvestmentCash?
  }

  predicate RetainedId(accounts: seq<Account>, a: int) {
    exists i :: 0 <= i < |accounts| && accounts[i].id == a && Retained(accounts[i].role)
  }

  /** Current positions of the retained accounts. */
  function KeptPart(accounts: seq<Account>, current: Position): Position {
    map k | k in current && RetainedId(accounts, k.0) :: current[k]
  }

  /** What stays plus what next month requires. */
  function BaseTargets(accounts: seq<Account>, current: Position, requirements: Position): Position {
    Merged(KeptPart(accounts, current), requirements)
  }

  /** The base targets after the members in `done` have put their residual on their primary account. */
  ghost function Residuals(base: Position, totals: map<int, int>, primary: map<int, int>, done: set<int>): Position
    requires done <= totals.Keys
  {
    map k | k in base.Keys + (set m | m in done && m in primary :: (primary[m], m)) ::
      Get(base, k) + if k.1 in done && k.1 in primary && primary[k.1] == k.0 then totals[k.1] - MemberTotal(base, k.1) else 0
  }

  ghost function TargetsOf(accounts: seq<Account>, current: Position, requirements: Position, totals: map<int, int>): Position {
    Residuals(BaseTargets(accounts, current, requirements), totals, PrimaryOf(accounts, |accounts|), totals.Keys)
  }

  method SumMember(p: Position, m: int) returns (total: int)
    ensures total == MemberTotal(p, m)
  {
    total := 0;
    var rest := p;
    while rest != map[]
      invariant forall k :: k in rest ==> k in p && rest[k] == p[k]
      invariant total + MemberTotal(rest, m) == MemberTotal(p, m)
      decreases |rest|
    {
      var k :| k in rest;
      MemberTotalPlus(rest - {k}, k, rest[k], m);
      assert Plus(rest - {k}, k, rest[k]) == rest;
      if k.1 == m { total := total + rest[k]; }
      rest := rest - {k};
    }
    assert MemberPart(rest, m) == map[];
  }

  method ComputeTargets(accounts: seq<Account>, current: Position, requirements: Position, totals: map<int, int>)
    returns (targets: Position)
    ensures targets == TargetsOf(accounts, current, requirements, totals)
  {
    var base := BaseTargets(accounts, current, requirements);
    var primary := PrimaryOf(accounts, |accounts|);
    targets := base;
    var done: set<int> := {};
    hide BaseTargets, PrimaryOf, Residuals, MemberTotal;
    NothingServed(base, totals, primary);
    while done != totals.Keys
      invariant done <= totals.Keys
      invariant targets == Residuals(base, totals, primary, done)
      decreases totals.Keys - done
    {
      var m := Pending(totals, done);
      targets := AddResidual(base, totals, primary, done, m, targets);
      done := done + {m};
    }
  }

  /** Puts what a member is still short of, or over, on its primary account. */
  method AddResidual(ghost base: Position, totals: map<int, int>, primary: map<int, int>, ghost done: set<int>, m: int, targets: Position)
    returns (after: Position)
    requires done <= totals.Keys && m in totals && m !in done && targets == Residuals(base, totals, primary, done)
    ensures after == Residuals(base, totals, primary, done + {m})
  {
    hide Residuals, MemberTotal;
    ResidualOfPending(base, totals, primary, done, m);
    ResidualStep(base, totals, primary, done, m);
    var given := SumMember(targets, m);
    after := if m in primary then Plus(targets, (primary[m], m), totals[m] - given) else targets;
  }

  method Pending(totals: map<int, int>, done: set<int>) returns (m: int)
    requires done < totals.Keys
    ensures m in totals && m !in done
  {
    var pending := totals.Keys - done;
    assert pending != {} by { assert done + pending == totals.Keys; }
    assert (forall m :: m !in pending) ==> pending == {};
    m :| m in pending;
  }

  lemma NothingServed(base: Position, totals: map<int, int>, primary: map<int, int>)
    ensures Residuals(base, totals, primary, {}) == base
  {
    hide MemberTotal;
  }

  /** A member not yet served still has its base targets. */
  lemma ResidualOfPending(base: Position, totals: map<int, int>, primary: map<int, int>, done: set<int>, m: int)
    requires done <= totals.Keys && m !in done
    ensures MemberTotal(Residuals(base, totals, primary, done), m) == MemberTotal(base, m)
  {
    assert MemberPart(Residuals(base, totals, primary, done), m) == MemberPart(base, m);
  }

  lemma ResidualStep(base: Position, totals: map<int, int>, primary: map<int, int>, done: set<int>, m: int)
    requires done <= totals.Keys && m in totals && m !in done
    ensures Residuals(base, totals, primary, done + {m})
            == if m in primary
               then Plus(Residuals(base, totals, primary, done), (primary[m], m), totals[m] - MemberTotal(base, m))
               else Residuals(base, totals, primary, done)
  {
    hide MemberTotal;
  }

  /** A member with a primary account is targeted exactly its economic total. */
  lemma ResidualMember(base: Position, totals: map<int, int>, primary: map<int, int>, m: int)
    requires m in totals && m in primary
    ensures MemberTotal(Residuals(base, totals, primary, totals.Keys), m) == totals[m]
  {
    var all := Residuals(base, totals, primary, totals.Keys);
    var k := (primary[m], m);
    var part := MemberPart(base, m);
    assert MemberPart(all, m) == Plus(part, k, totals[m] - MemberTotal(base, m)) by {
      hide MemberTotal;
    }
    TotalPlus(part, k, totals[m] - MemberTotal(base, m));
  }

  /** Every member with a target has an economic total and a primary account, and so has every member
      with an economic total. */
  ghost predicate Placed(base: Position, totals: map<int, int>, primary: map<int, int>) {
    (forall k :: k in base ==> k.1 in totals) && forall m :: m in totals ==> m in primary
  }

  lemma TargetsOfMembers(base: Position, totals: map<int, int>, primary: map<int, int>, m: int)
    requires Placed(base, totals, primary)
    ensures MemberTotal(Residuals(base, totals, primary, totals.Keys), m) == Get(totals, m)
  {
    if m in totals {
      ResidualMember(base, totals, primary, m);
    } else {
      assert MemberPart(Residuals(base, totals, primary, totals.Keys), m) == map[];
    }
  }

  /** Each member's targets add up to its economic total, and the household's to the economic total. */
  lemma TargetsAddUp(base: Position, totals: map<int, int>, primary: map<int, int>)
    requires Placed(base, totals, primary)
    ensures forall m :: MemberTotal(Residuals(base, totals, primary, totals.Keys), m) == Get(totals, m)
    ensures Total(Residuals(base, totals, primary, totals.Keys)) == Total(totals)
  {
    forall m ensures MemberTotal(Residuals(base, totals, primary, totals.Keys), m) == Get(totals, m) {
      TargetsOfMembers(base, totals, primary, m);
    }
    MembersMakeTotal(Residuals(base, totals, primary, totals.Keys), totals);
  }

  // ---- Account side ------------------------------------------------------------------------------------

  /** Only primary accounts receive residuals. */
  lemma ResidualElsewhere(base: Position, totals: map<int, int>, primary: map<int, int>, a: int)
    requires forall m :: m in primary ==> primary[m] != a
    ensures AccountPart(Residuals(base, totals, primary, totals.Keys), a) == AccountPart(base, a)
  {
    hide MemberTotal;
  }

  lemma BaseOfRetained(accounts: seq<Account>, current: Position, requirements: Position, a: int, k: (int, int))
    requires RetainedId(accounts, a)
    ensures Get(AccountPart(BaseTargets(accounts, current, requirements), a), k)
            == Get(AccountPart(current, a), k) + Get(AccountPart(requirements, a), k)
  {
    hide RetainedId;
  }

  /** A retained account that no member uses as its primary is targeted its current balance plus what
      next month requires there. */
  lemma RetainedTarget(accounts: seq<Account>, current: Position, requirements: Position, totals: map<int, int>, a: int)
    requires RetainedId(accounts, a) && forall m :: m in PrimaryOf(accounts, |accounts|) ==> PrimaryOf(accounts, |accounts|)[m] != a
    ensures AccountTotal(TargetsOf(accounts, current, requirements, totals), a)
            == AccountTotal(current, a) + AccountTotal(requirements, a)
  {
    var base := BaseTargets(accounts, current, requirements);
    ResidualElsewhere(base, totals, PrimaryOf(accounts, |accounts|), a);
    forall k
      ensures Get(AccountPart(base, a), k) == Get(AccountPart(current, a), k) + Get(AccountPart(requirements, a), k)
    {
      BaseOfRetained(accounts, current, requirements, a, k);
    }
    hide AccountPart, Residuals, BaseTargets, PrimaryOf, RetainedId;
    TotalAdds(AccountPart(current, a), AccountPart(requirements, a), AccountPart(base, a));
  }

  lemma PersonalIsNotRetained(accounts: seq<Account>, a: int, m: int)
    requires DistinctAccounts(accounts) && RetainedId(accounts, a) && m in PrimaryOf(accounts, |accounts|)
    ensures PrimaryOf(accounts, |accounts|)[m] != a
  {
    PrimaryIsPersonal(accounts, |accounts|, m);
  }

  // ---- What an account is targeted, member by member -----------------------------------------------------

  /** Some participant with the id is the primary personal account of the member. */
  ghost predicate PrimaryFor(accounts: seq<Account>, a: int, m: int) {
    exists i :: 0 <= i < |accounts| && accounts[i].id == a && accounts[i].role.PersonalDestination? && accounts[i].primary
                && accounts[i].member == Some(m)
  }

  lemma {:induction false} PrimaryIsFor(accounts: seq<Account>, n: nat, m: int)
    requires n <= |accounts|
    ensures m in PrimaryOf(accounts, n) ==> PrimaryFor(accounts, PrimaryOf(accounts, n)[m], m)
    ensures m !in PrimaryOf(accounts, n) ==>
              forall i :: 0 <= i < n && accounts[i].role.PersonalDestination? && accounts[i].primary ==> accounts[i].member != Some(m)
  {
    if n > 0 { PrimaryIsFor(accounts, n - 1, m); }
  }

  lemma IdsApart(accounts: seq<Account>)
    requires DistinctAccounts(accounts)
    ensures forall i, j :: 0 <= i < |accounts| && 0 <= j < |accounts| && accounts[i].id == accounts[j].id ==> i == j
  {
    assert forall i, j :: 0 <= i < j < |accounts| ==> accounts[i].id != accounts[j].id;
  }

  /** On an account that is not a member's primary one, the member is targeted what next month requires there and,
      exactly on wallets, allocation accounts, cards and investments, what it holds there now. */
  lemma TargetElsewhere(accounts: seq<Account>, current: Position, requirements: Position, totals: map<int, int>, i: nat, m: int)
    requires DistinctAccounts(accounts) && i < |accounts|
    requires !(accounts[i].role.PersonalDestination? && accounts[i].primary && accounts[i].member == Some(m))
    ensures var a := accounts[i];
            var kept := a.role.Wallet? || a.role.AllocationDestination? || a.role.CreditCard? || a.role.InvestmentPosition? || a.role.InvestmentCash?;
            Get(TargetsOf(accounts, current, requirements, totals), (a.id, m))
            == Get(requirements, (a.id, m)) + if kept then Get(current, (a.id, m)) else 0
  {
    IdsApart(accounts);
    PrimaryIsFor(accounts, |accounts|, m);
    hide MemberTotal, PrimaryOf, DistinctAccounts;
  }

  /** An account nobody uses as primary is targeted its requirement, and its balance when that is kept. */
  lemma TargetTotal(accounts: seq<Account>, current: Position, requirements: Position, totals: map<int, int>, i: nat)
    requires DistinctAccounts(accounts) && i < |accounts| && !(accounts[i].role.PersonalDestination? && accounts[i].primary)
    ensures var a := accounts[i];
            var kept := a.role.Wallet? || a.role.AllocationDestination? || a.role.CreditCard? || a.role.InvestmentPosition? || a.role.InvestmentCash?;
            AccountTotal(TargetsOf(accounts, current, requirements, totals), a.id)
            == AccountTotal(requirements, a.id) + if kept then AccountTotal(current, a.id) else 0
  {
    var a := accounts[i];
    var targets := TargetsOf(accounts, current, requirements, totals);
    var kept := a.role.Wallet? || a.role.AllocationDestination? || a.role.CreditCard? || a.role.InvestmentPosition? || a.role.InvestmentCash?;
    var stays := if kept then AccountPart(current, a.id) else map[];
    hide TargetsOf, DistinctAccounts;
    forall k
      ensures Get(AccountPart(targets, a.id), k) == Get(stays, k) + Get(AccountPart(requirements, a.id), k)
    {
      TargetElsewhere(accounts, current, requirements, totals, i, k.1);
    }
    hide AccountPart;
    TotalAdds(stays, AccountPart(requirements, a.id), AccountPart(targets, a.id));
    EmptyPosition();
  }

  lemma EmptyPosition()
    ensures Total<(int, int)>(map[]) == 0
  {
  }

  // ---- End to end ----------------------------------------------------------------------------------------

  ghost predicate CentMap(t: map<int, int>) { forall m :: m in t ==> IsCents(t[m]) }

  lemma TargetsInCents(accounts: seq<Account>, current: Position, requirements: Position, totals: map<int, int>)
    requires CentPosition(current) && CentPosition(requirements) && CentMap(totals)
    ensures CentPosition(TargetsOf(accounts, current, requirements, totals))
  {
    var base := BaseTargets(accounts, current, requirements);
    var primary := PrimaryOf(accounts, |accounts|);
    BaseInCents(accounts, current, requirements);
    hide BaseTargets, PrimaryOf, CentPosition;
    ResidualsInCents(base, totals, primary);
  }

  lemma ResidualsInCents(base: Position, totals: map<int, int>, primary: map<int, int>)
    requires CentPosition(base) && CentMap(totals)
    ensures CentPosition(Residuals(base, totals, primary, totals.Keys))
  {
    forall m ensures IsCents(MemberTotal(base, m)) {
      TotalInCents(MemberPart(base, m));
    }
    hide MemberTotal;
  }

  lemma BaseInCents(accounts: seq<Account>, current: Position, requirements: Position)
    requires CentPosition(current) && CentPosition(requirements)
    ensures CentPosition(BaseTargets(accounts, current, requirements))
  {
    hide RetainedId;
  }

  /** Every position and requirement on a participant, an ownership for each participant, requirements only
      where expenses may be reserved and never negative on an allocation destination, and every member placed on
      a primary account. */
  ghost predicate Arranged(accounts: seq<Account>, current: Position, requirements: Position, totals: map<int, int>, ownerships: map<int, int>) {
    && DistinctAccounts(accounts) && Within(current, accounts) && Within(requirements, accounts)
    && (forall i :: 0 <= i < |accounts| ==> accounts[i].id in ownerships)
    && Placed(BaseTargets(accounts, current, requirements), totals, PrimaryOf(accounts, |accounts|))
    && (forall i :: 0 <= i < |accounts| && Retained(accounts[i].role) ==>
          if accounts[i].role.AllocationDestination? then AccountTotal(requirements, accounts[i].id) >= 0
          else AccountTotal(requirements, accounts[i].id) == 0)
  }

  /** The same with amounts in whole cents. */
  ghost predicate ReadyToRoute(accounts: seq<Account>, current: Position, requirements: Position, totals: map<int, int>, ownerships: map<int, int>) {
    && Arranged(accounts, current, requirements, totals, ownerships)
    && CentPosition(current) && CentPosition(requirements) && CentMap(totals)
  }

  lemma TargetsWithin(accounts: seq<Account>, current: Position, requirements: Position, totals: map<int, int>)
    requires Within(current, accounts) && Within(requirements, accounts)
    ensures Within(TargetsOf(accounts, current, requirements, totals), accounts)
  {
    var base := BaseTargets(accounts, current, requirements);
    var primary := PrimaryOf(accounts, |accounts|);
    assert Within(base, accounts) by { hide RetainedId, IsAccount; }
    forall m | m in primary ensures IsAccount(accounts, primary[m]) {
      PrimaryIsPersonal(accounts, |accounts|, m);
    }
    hide BaseTargets, PrimaryOf, MemberTotal, IsAccount;
  }

  /** What the router sees of a retained account: a wallet, card or investment is on target, an
      allocation destination never above it. */
  lemma RetainedNet(accounts: seq<Account>, current: Position, requirements: Position, totals: map<int, int>, ownerships: map<int, int>, i: nat)
    requires Arranged(accounts, current, requirements, totals, ownerships)
    requires i < |accounts| && Retained(accounts[i].role)
    ensures var net := Net(current, TargetsOf(accounts, current, requirements, totals), accounts[i].id);
            net <= 0 && (!accounts[i].role.AllocationDestination? ==> net == 0)
  {
    hide TargetsOf, AccountTotal, PrimaryOf, RoundHalfUp;
    var a := accounts[i].id;
    assert RetainedId(accounts, a);
    forall m | m in PrimaryOf(accounts, |accounts|) ensures PrimaryOf(accounts, |accounts|)[m] != a {
      PersonalIsNotRetained(accounts, a, m);
    }
    hide RetainedId;
    RetainedTarget(accounts, current, requirements, totals, a);
    RoundHalfUpSign(-AccountTotal(requirements, a), CENT);
  }

  lemma ArrangedIsRoutable(accounts: seq<Account>, current: Position, requirements: Position, totals: map<int, int>, ownerships: map<int, int>)
    requires Arranged(accounts, current, requirements, totals, ownerships)
    ensures var targets := TargetsOf(accounts, current, requirements, totals);
            Routable(accounts, Nets(accounts, current, targets), AllNeeds(accounts, current, targets), ownerships)
  {
    var targets := TargetsOf(accounts, current, requirements, totals);
    forall i | 0 <= i < |accounts| && Retained(accounts[i].role)
      ensures !accounts[i].role.AllocationDestination? ==> Net(current, targets, accounts[i].id) == 0
    {
      RetainedNet(accounts, current, requirements, totals, ownerships, i);
    }
    assert forall i :: 0 <= i < |accounts| ==> accounts[i].id in ownerships;
    assert DistinctAccounts(accounts);
    hide Arranged, TargetsOf, Net, MemberNeeds, DistinctAccounts;
  }

  ghost function Transfers(accounts: seq<Account>, current: Position, requirements: Position, totals: map<int, int>,
                           ownerships: map<int, int>): seq<Row>
    requires Arranged(accounts, current, requirements, totals, ownerships)
  {
    ArrangedIsRoutable(accounts, current, requirements, totals, ownerships);
    var targets := TargetsOf(accounts, current, requirements, totals);
    PlanRows(accounts, Nets(accounts, current, targets), AllNeeds(accounts, current, targets), ownerships)
  }

  /** Each member is targeted exactly its economic total. */
  lemma MembersTargeted(accounts: seq<Account>, current: Position, requirements: Position, totals: map<int, int>)
    requires Placed(BaseTargets(accounts, current, requirements), totals, PrimaryOf(accounts, |accounts|))
    ensures var targets := TargetsOf(accounts, current, requirements, totals);
            Total(targets) == Total(totals) && forall m :: MemberTotal(targets, m) == Get(totals, m)
  {
    hide BaseTargets, PrimaryOf, Placed, Residuals;
    TargetsAddUp(BaseTargets(accounts, current, requirements), totals, PrimaryOf(accounts, |accounts|));
  }

  lemma TargetsBalance(accounts: seq<Account>, current: Position, requirements: Position, totals: map<int, int>)
    requires CentPosition(current) && CentPosition(requirements) && CentMap(totals)
    ensures CentBalances(accounts, current, TargetsOf(accounts, current, requirements, totals))
  {
    hide TargetsOf, AccountTotal;
    var targets := TargetsOf(accounts, current, requirements, totals);
    TargetsInCents(accounts, current, requirements, totals);
    forall i | 0 <= i < |accounts| ensures IsCents(AccountTotal(current, accounts[i].id) - AccountTotal(targets, accounts[i].id)) {
      CentDifference(current, targets, accounts[i].id);
    }
  }

  /** The settlement without card-funded operating accounts: executing all recommendations leaves every
      account exactly at its target if and only if the physical and the economic totals of the household
      agree. */
  lemma SettlementReachesTargets(accounts: seq<Account>, current: Position, requirements: Position, totals: map<int, int>, ownerships: map<int, int>)
    requires ReadyToRoute(accounts, current, requirements, totals, ownerships)
    ensures var targets := TargetsOf(accounts, current, requirements, totals);
            var rows := Transfers(accounts, current, requirements, totals, ownerships);
            Total(current) == Total(totals) <==>
            forall i :: 0 <= i < |accounts| ==>
              AccountTotal(current, accounts[i].id) + Effect(rows, accounts[i].id) == AccountTotal(targets, accounts[i].id)
  {
    hide TargetsOf, PlanRows, Nets, AllNeeds, AccountTotal, MemberTotal, Effect, CentBalances, Routable, BaseTargets, PrimaryOf, Placed;
    var targets := TargetsOf(accounts, current, requirements, totals);
    ArrangedIsRoutable(accounts, current, requirements, totals, ownerships);
    MembersTargeted(accounts, current, requirements, totals);
    TargetsWithin(accounts, current, requirements, totals);
    TargetsBalance(accounts, current, requirements, totals);
    TransfersReachTargets(accounts, current, targets, ownerships);
  }

  /** When the household totals agree, executing all recommendations leaves an operating account, and any other
      account that is nobody's primary one, holding exactly what next month requires there, on top of its balance
      if that is kept. */
  lemma SettlementFunds(accounts: seq<Account>, current: Position, requirements: Position, totals: map<int, int>, ownerships: map<int, int>, i: nat)
    requires ReadyToRoute(accounts, current, requirements, totals, ownerships) && Total(current) == Total(totals)
    requires i < |accounts| && !(accounts[i].role.PersonalDestination? && accounts[i].primary)
    ensures var a := accounts[i];
            var kept := a.role.Wallet? || a.role.AllocationDestination? || a.role.CreditCard? || a.role.InvestmentPosition? || a.role.InvestmentCash?;
            AccountTotal(current, a.id) + Effect(Transfers(accounts, current, requirements, totals, ownerships), a.id)
            == AccountTotal(requirements, a.id) + if kept then AccountTotal(current, a.id) else 0
  {
    assert DistinctAccounts(accounts);
    hide TargetsOf, Transfers, AccountTotal, Effect, ReadyToRoute, Total;
    SettlementReachesTargets(accounts, current, requirements, totals, ownerships);
    TargetTotal(accounts, current, requirements, totals, i);
  }

  /** From any arrangement, sub-cent positions included, executing all recommendations leaves every account
      within half a cent for itself and for every account of its target when the household totals agree. */
  lemma SettlementComesNear(accounts: seq<Account>, current: Position, requirements: Position, totals: map<int, int>,
                            ownerships: map<int, int>, i: nat)
    requires Arranged(accounts, current, requirements, totals, ownerships) && i < |accounts| && Total(current) == Total(totals)
    ensures var targets := TargetsOf(accounts, current, requirements, totals);
            var rows := Transfers(accounts, current, requirements, totals, ownerships);
            var a := accounts[i].id;
            2 * Abs(AccountTotal(current, a) + Effect(rows, a) - AccountTotal(targets, a)) <= (|accounts| + 1) * CENT
  {
    hide TargetsOf, PlanRows, Nets, AllNeeds, AccountTotal, MemberTotal, Effect, Routable, BaseTargets, PrimaryOf, Placed;
    ArrangedIsRoutable(accounts, current, requirements, totals, ownerships);
    MembersTargeted(accounts, current, requirements, totals);
    TargetsWithin(accounts, current, requirements, totals);
    TransfersComeNear(accounts, current, TargetsOf(accounts, current, requirements, totals), ownerships, i);
  }

  lemma CentDifference(p: Position, q: Position, a: int)
    requires CentPosition(p) && CentPosition(q)
    ensures IsCents(AccountTotal(p, a) - AccountTotal(q, a))
  {
    TotalInCents(AccountPart(p, a));
    TotalInCents(AccountPart(q, a));
    CentsAdd(AccountTotal(p, a), AccountTotal(q, a));
  }

  /** Wallets, cards and investment positions take part in no transfer, and an allocation destination is
      never a source. */
  lemma RetainedAccountsStay(accounts: seq<Account>, current: Position, requirements: Position, totals: map<int, int>,
                             ownerships: map<int, int>, i: nat)
    requires ReadyToRoute(accounts, current, requirements, totals, ownerships)
    requires i < |accounts| && Retained(accounts[i].role)
    ensures var rows := Transfers(accounts, current, requirements, totals, ownerships);
            && NeverFrom(rows, accounts[i].id)
            && (!accounts[i].role.AllocationDestination? ==> NeverTo(rows, accounts[i].id))
  {
    var targets := TargetsOf(accounts, current, requirements, totals);
    ArrangedIsRoutable(accounts, current, requirements, totals, ownerships);
    RetainedNet(accounts, current, requirements, totals, ownerships, i);
    RowSides(accounts, Nets(accounts, current, targets), AllNeeds(accounts, current, targets), ownerships, i);
    hide TargetsOf, PlanRows, AllNeeds, Net, ReadyToRoute;
  }
}
