/** What the reserves of a month mean, expense by expense: where each one is set aside, for how much, for whom, and
    when it blocks the settlement instead. */
module ReserveLaws {
  import opened Money
  import opened Wrappers
  import opened FiniteSums
  import opened Allocation
  import opened Positions
  import opened TransferPlan
  import opened Reserves
  import Fx
  import MovementLaws

  // ---- The destination --------------------------------------------------------------------------------------

  /** Account i passes a test and no other does. */
  ghost predicate Alone(s: Setup, i: nat, keep: Account -> bool) {
    i < |s.accounts| && keep(s.accounts[i]) && forall j :: 0 <= j < |s.accounts| && keep(s.accounts[j]) ==> j == i
  }

  /** An allocation account of the owner of a 50/50 shared expense. */
  function SharedIn(s: Setup, owner: int): Account -> bool {
    (a: Account) => a.role.AllocationDestination? && a.id in s.owners && s.owners[a.id] == owner
  }

  function BankSharedIn(s: Setup, owner: int): Account -> bool {
    (a: Account) => a.role.AllocationDestination? && a.id in s.owners && s.owners[a.id] == owner && a.id in s.banks
  }

  function PersonalOf(member: int): Account -> bool {
    (a: Account) => a.role.PersonalDestination? && a.primary && a.member == Some(member)
  }

  function IsOperating(): Account -> bool { (a: Account) => a.role.Operating? }

  /** Where an expense goes: its configured account, else the one of its linked asset, else by its owner and role
      the only account that can take it. */
  ghost predicate GoesTo(s: Setup, e: Expense, i: nat) {
    && i < |s.accounts|
    && if e.explicit.Some? then s.accounts[i].id == e.explicit.value
       else if e.linked.Some? then s.accounts[i].id == e.linked.value
       else if e.owner.Some? && e.owner.value.kind.EqualSplit? then
         Alone(s, i, SharedIn(s, e.owner.value.id))
         || ((forall j :: !Alone(s, j, SharedIn(s, e.owner.value.id))) && Alone(s, i, BankSharedIn(s, e.owner.value.id)))
       else if e.owner.Some? && e.owner.value.kind.Individual? then Alone(s, i, PersonalOf(e.owner.value.kind.member))
       else e.role != Savings && e.role != InvestmentSaving && Alone(s, i, IsOperating())
  }

  lemma {:induction false} ThoseAre(s: Setup, keep: Account -> bool, n: nat)
    requires n <= |s.accounts|
    ensures forall i: nat :: i in Those(s, keep, n) <==> i < n && keep(s.accounts[i])
    ensures Distinct(Those(s, keep, n))
  {
    if n > 0 { ThoseAre(s, keep, n - 1); }
  }

  lemma OnlyElement(found: seq<nat>, i: nat)
    requires Distinct(found)
    ensures OnlyOne(found) == Some(i) <==> i in found && forall j :: j in found ==> j == i
  {
    if |found| == 1 { assert found[0] in found; }
    if |found| > 1 { assert found[0] in found && found[1] in found && found[0] != found[1]; }
  }

  lemma SingleIs(s: Setup, keep: Account -> bool, i: nat)
    ensures OnlyOne(All(s, keep)) == Some(i) <==> Alone(s, i, keep)
  {
    ThoseAre(s, keep, |s.accounts|);
    OnlyElement(All(s, keep), i);
    hide Those, OnlyOne;
    assert (forall j :: j in All(s, keep) ==> j == i) <==> forall j: nat :: j < |s.accounts| && keep(s.accounts[j]) ==> j == i;
  }

  lemma SharedDestination(s: Setup, e: Expense, i: nat)
    requires e.explicit.None? && e.linked.None? && e.owner.Some? && e.owner.value.kind.EqualSplit?
    ensures DestinationOf(s, e) == Some(i) <==> GoesTo(s, e, i)
  {
    var owner := e.owner.value.id;
    var first := (a: Account) => a.role.AllocationDestination? && OwnedBy(s, a, e.owner.value.id);
    var second := (a: Account) => a.role.AllocationDestination? && OwnedBy(s, a, e.owner.value.id) && a.id in s.banks;
    SameTest(s, first, SharedIn(s, owner), |s.accounts|);
    SameTest(s, second, BankSharedIn(s, owner), |s.accounts|);
    forall j: nat ensures OnlyOne(All(s, first)) == Some(j) <==> Alone(s, j, SharedIn(s, owner)) { SingleIs(s, SharedIn(s, owner), j); }
    SingleIs(s, BankSharedIn(s, owner), i);
    hide All, Alone, SharedIn, BankSharedIn;
    if |All(s, first)| == 1 { assert OnlyOne(All(s, first)) == Some(All(s, first)[0]); }
  }

  /** Tests that agree find the same accounts. */
  lemma {:induction false} SameTest(s: Setup, a: Account -> bool, b: Account -> bool, n: nat)
    requires n <= |s.accounts| && forall x :: a(x) == b(x)
    ensures Those(s, a, n) == Those(s, b, n)
  {
    if n > 0 { SameTest(s, a, b, n - 1); }
  }

  lemma DestinationIs(s: Setup, e: Expense, i: nat)
    requires SetupOk(s)
    ensures DestinationOf(s, e) == Some(i) <==> GoesTo(s, e, i)
  {
    if e.explicit.Some? || e.linked.Some? {
      assert forall j, k :: 0 <= j < k < |s.accounts| ==> s.accounts[j].id != s.accounts[k].id;
    } else if e.owner.Some? && e.owner.value.kind.EqualSplit? {
      SharedDestination(s, e, i);
    } else if e.owner.Some? && e.owner.value.kind.Individual? {
      var keep := (a: Account) => a.role.PersonalDestination? && a.primary && a.member == Some(e.owner.value.kind.member);
      SameTest(s, keep, PersonalOf(e.owner.value.kind.member), |s.accounts|);
      SingleIs(s, PersonalOf(e.owner.value.kind.member), i);
    } else {
      SameTest(s, (a: Account) => a.role.Operating?, IsOperating(), |s.accounts|);
      SingleIs(s, IsOperating(), i);
    }
    hide Alone, Those;
  }

  // ---- What an expense sets aside -----------------------------------------------------------------------------

  /** Roles that are reserved for. */
  predicate Supported(role: CashRole) { role == OperatingCash || role == TemporaryCommitment || role == Savings || role == InvestmentSaving }

  /** The account may hold it: the member's own primary account for an individual expense; else for commitments an
      operating or allocation account, of the same owner when 50/50; for savings an allocation account; for the
      rest an operating one. */
  predicate MayHold(s: Setup, e: Expense, a: Account) {
    || (e.owner.Some? && e.owner.value.kind.Individual? && a.role.PersonalDestination? && a.primary && a.member == Some(e.owner.value.kind.member))
    || match e.role
       case TemporaryCommitment =>
         a.role.Operating? || (a.role.AllocationDestination?
           && (e.owner.Some? && e.owner.value.kind.EqualSplit? ==> a.id in s.owners && s.owners[a.id] == e.owner.value.id))
       case Savings | InvestmentSaving => a.role.AllocationDestination?
       case _ => a.role.Operating?
  }

  /** Whose allocation splits it: the owner of the account, or of the expense when the account has none. */
  function OwnerFor(s: Setup, e: Expense, a: Account): Option<int> {
    if a.id in s.owners then Some(s.owners[a.id]) else if e.owner.Some? then Some(e.owner.value.id) else None
  }

  /** The expense sets v aside on account i for the members of an allocation. */
  ghost predicate SetsAside(s: Setup, e: Expense, i: nat, v: int, vector: seq<Weight>) {
    && e.amount > 0 && Supported(e.role) && GoesTo(s, e, i) && MayHold(s, e, s.accounts[i])
    && OwnerFor(s, e, s.accounts[i]).Some? && s.vectors(OwnerFor(s, e, s.accounts[i]).value) == Some(vector)
    && Fx.Converts(e.amount, e.currency, s.base, "USD", s.rates, false, Ok(v))
  }

  /** It should be reserved for but cannot: it has nowhere to go and is no saving, or its account may not hold it,
      or its owner has no allocation, or its currency no rate. */
  ghost predicate Blocks(s: Setup, e: Expense) {
    && e.amount > 0 && Supported(e.role)
    && if forall i: nat :: !GoesTo(s, e, i) then e.role != Savings && e.role != InvestmentSaving
       else exists i: nat :: GoesTo(s, e, i)
              && (!MayHold(s, e, s.accounts[i])
                  || (OwnerFor(s, e, s.accounts[i]).Some?
                      && (s.vectors(OwnerFor(s, e, s.accounts[i]).value).None?
                          || !exists v :: Fx.Converts(e.amount, e.currency, s.base, "USD", s.rates, false, Ok(v)))))
  }

  /** A commitment kept in an allocation account is held there already. */
  predicate IsHeld(e: Expense, a: Account) { e.role == TemporaryCommitment && a.role.AllocationDestination? }

  lemma ExpenseConverts(s: Setup, e: Expense)
    ensures var r := Fx.Convert(e.amount, e.currency, s.base, "USD", s.rates, false);
            forall v :: Fx.Converts(e.amount, e.currency, s.base, "USD", s.rates, false, Ok(v)) <==> r == Ok(v)
  {
    forall v ensures Fx.Converts(e.amount, e.currency, s.base, "USD", s.rates, false, Ok(v))
                     <==> Ok(v) == Fx.Convert(e.amount, e.currency, s.base, "USD", s.rates, false) {
      Fx.ConversionIs(e.amount, e.currency, s.base, "USD", s.rates, false, Ok(v));
    }
    hide Fx.Convert, Fx.Converts;
  }

  lemma DestinationsAre(s: Setup, e: Expense)
    requires SetupOk(s)
    ensures forall i: nat :: GoesTo(s, e, i) <==> DestinationOf(s, e) == Some(i)
  {
    hide GoesTo, DestinationOf;
    forall i: nat ensures GoesTo(s, e, i) <==> DestinationOf(s, e) == Some(i) { DestinationIs(s, e, i); }
  }

  /** One expense adds one row and, unless it is held there already, its shares; or it blocks; or neither. */
  lemma ReserveForIs(s: Setup, r: Report, e: Expense)
    requires SetupOk(s)
    ensures var after := ReserveFor(s, r, e);
            && (forall i: nat, v, vector :: SetsAside(s, e, i, v, vector) ==>
                  && after.rows == r.rows + [Reserve(s.accounts[i].id, v, IsHeld(e, s.accounts[i]))]
                  && after.requirements == (if IsHeld(e, s.accounts[i]) then r.requirements
                                            else AddShares(r.requirements, s.accounts[i].id, Allocated(v, vector, CENT), |vector|)))
            && ((forall i: nat, v, vector :: !SetsAside(s, e, i, v, vector)) ==> after.rows == r.rows && after.requirements == r.requirements)
            && (after.blocked <==> r.blocked || Blocks(s, e))
  {
    DestinationsAre(s, e);
    ExpenseConverts(s, e);
    hide GoesTo, DestinationOf, Fx.Converts, Fx.Convert, AddShares, Allocated, SetupOk;
    var d := DestinationOf(s, e);
    if e.amount > 0 && Supported(e.role) && d.Some? {
      var i: nat := d.value;
      var a := s.accounts[i];
      assert GoesTo(s, e, i);
      assert Compatible(s, e, a) <==> MayHold(s, e, a);
      assert forall j: nat :: GoesTo(s, e, j) ==> j == i;
      var converted := Fx.Convert(e.amount, e.currency, s.base, "USD", s.rates, false);
      if Compatible(s, e, a) && OwnerFor(s, e, a).Some? && s.vectors(OwnerFor(s, e, a).value).Some? && converted.Ok? {
        assert SetsAside(s, e, i, converted.value, s.vectors(OwnerFor(s, e, a).value).value);
      }
    }
  }

  // ---- What is required in all ----------------------------------------------------------------------------------

  /** What an expense requires of an account for a member. */
  ghost function RequiredBy(s: Setup, e: Expense, a: int, m: int): int {
    if exists i: nat, v, vector :: SetsAside(s, e, i, v, vector) then
      var i: nat, v, vector :| SetsAside(s, e, i, v, vector);
      if s.accounts[i].id == a && !IsHeld(e, s.accounts[i]) then ShareOf(Allocated(v, vector, CENT), m) else 0
    else 0
  }

  ghost function RequiredTo(s: Setup, expenses: seq<Expense>, a: int, m: int, n: nat): int
    requires n <= |expenses|
  {
    if n == 0 then 0 else RequiredTo(s, expenses, a, m, n - 1) + RequiredBy(s, expenses[n - 1], a, m)
  }

  ghost predicate AnyBlocks(s: Setup, expenses: seq<Expense>, n: nat)
    requires n <= |expenses|
  {
    n > 0 && (AnyBlocks(s, expenses, n - 1) || Blocks(s, expenses[n - 1]))
  }

  lemma ReserveForRequires(s: Setup, r: Report, e: Expense, a: int, m: int)
    requires SetupOk(s)
    ensures Get(ReserveFor(s, r, e).requirements, (a, m)) == Get(r.requirements, (a, m)) + RequiredBy(s, e, a, m)
  {
    ReserveForIs(s, r, e);
    hide ReserveFor, SetsAside, Blocks, AddShares, Allocated, ShareOf, SetupOk;
    if exists i: nat, v, vector :: SetsAside(s, e, i, v, vector) {
      var i: nat, v, vector :| SetsAside(s, e, i, v, vector)
        && RequiredBy(s, e, a, m) == if s.accounts[i].id == a && !IsHeld(e, s.accounts[i]) then ShareOf(Allocated(v, vector, CENT), m) else 0;
      SharesAdd(r.requirements, s.accounts[i].id, v, vector, a, m);
    }
  }

  lemma SharesAdd(p: Position, account: int, v: int, vector: seq<Weight>, a: int, m: int)
    ensures Get(AddShares(p, account, Allocated(v, vector, CENT), |vector|), (a, m))
            == Get(p, (a, m)) + if account == a then ShareOf(Allocated(v, vector, CENT), m) else 0
  {
    MovementLaws.AddSharesGet(p, account, Allocated(v, vector, CENT), |vector|, a, m);
    hide AddShares, Allocated, ShareOfTo;
  }

  lemma ReserveForBlocks(s: Setup, r: Report, e: Expense)
    requires SetupOk(s)
    ensures ReserveFor(s, r, e).blocked <==> r.blocked || Blocks(s, e)
  {
    ReserveForIs(s, r, e);
    hide ReserveFor, SetsAside, Blocks, SetupOk, AddShares, Allocated;
  }

  lemma {:induction false} ReservesRequire(s: Setup, expenses: seq<Expense>, a: int, m: int, n: nat)
    requires SetupOk(s) && n <= |expenses|
    ensures var r := ReservesTo(s, expenses, n);
            && Get(r.requirements, (a, m)) == RequiredTo(s, expenses, a, m, n)
            && (r.blocked <==> AnyBlocks(s, expenses, n))
  {
    hide ReserveFor, SetsAside, Blocks, RequiredBy, SetupOk, AddShares, Allocated;
    if n > 0 {
      ReservesRequire(s, expenses, a, m, n - 1);
      ReserveForRequires(s, ReservesTo(s, expenses, n - 1), expenses[n - 1], a, m);
      ReserveForBlocks(s, ReservesTo(s, expenses, n - 1), expenses[n - 1]);
    }
  }

  /** The one operating account, with an owner: it takes the manual adjustment, if there is any. */
  ghost predicate TakesAdjustment(s: Setup, i: nat) {
    Alone(s, i, IsOperating()) && s.accounts[i].id in s.owners && ToCents(s.adjustment) != 0
  }

  ghost function AdjustedBy(s: Setup, a: int, m: int): int {
    if exists i: nat :: TakesAdjustment(s, i) then
      var i: nat :| TakesAdjustment(s, i);
      var vector := s.vectors(s.owners[s.accounts[i].id]);
      if s.accounts[i].id == a && vector.Some? then ShareOf(Allocated(ToCents(s.adjustment), vector.value, CENT), m) else 0
    else 0
  }

  lemma AdjustmentIs(s: Setup, r: Report, a: int, m: int)
    ensures var after := Adjusted(s, r);
            && Get(after.requirements, (a, m)) == Get(r.requirements, (a, m)) + AdjustedBy(s, a, m)
            && (after.blocked <==> r.blocked || exists i: nat :: TakesAdjustment(s, i) && s.vectors(s.owners[s.accounts[i].id]).None?)
  {
    var keep := (x: Account) => x.role.Operating?;
    var operating := OnlyOne(All(s, keep));
    SameTest(s, keep, IsOperating(), |s.accounts|);
    forall i: nat ensures operating == Some(i) <==> Alone(s, i, IsOperating()) { SingleIs(s, IsOperating(), i); }
    hide All, OnlyOne, Alone, AddShares, Allocated, ShareOf, ToCents;
    if exists i: nat :: TakesAdjustment(s, i) {
      var i: nat :| TakesAdjustment(s, i);
      assert operating == Some(i) && forall j: nat :: TakesAdjustment(s, j) ==> j == i;
      var vector := s.vectors(s.owners[s.accounts[i].id]);
      if vector.Some? { SharesAdd(r.requirements, s.accounts[i].id, ToCents(s.adjustment), vector.value, a, m); }
    } else if operating.Some? {
      assert Alone(s, operating.value, IsOperating()) && !TakesAdjustment(s, operating.value);
    }
  }

  /** What next month requires of an account for a member is that member's part of every expense set aside there and
      not held there already, and of the manual adjustment on the operating account; and the budget blocks the
      settlement exactly when one of its expenses, or the adjustment, cannot be placed. */
  lemma RequirementIs(s: Setup, expenses: seq<Expense>, a: int, m: int)
    requires SetupOk(s)
    ensures var r := ReservesOf(s, expenses);
            && Get(r.requirements, (a, m)) == RequiredTo(s, expenses, a, m, |expenses|) + AdjustedBy(s, a, m)
            && (r.blocked <==> AnyBlocks(s, expenses, |expenses|)
                               || exists i: nat :: TakesAdjustment(s, i) && s.vectors(s.owners[s.accounts[i].id]).None?)
  {
    ReservesRequire(s, expenses, a, m, |expenses|);
    AdjustmentIs(s, ReservesTo(s, expenses, |expenses|), a, m);
    hide Adjusted, ReservesTo, RequiredTo, AdjustedBy, AnyBlocks, TakesAdjustment;
  }
}
