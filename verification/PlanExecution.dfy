/** Executing a plan against the ledger and the monthly check-ins: what each slot contributes, how months and
    slots agree, and the breakdown by category. */
module PlanExecution {
  import opened Money
  import opened Wrappers
  import opened FiniteSums
  import opened PlanVsExecuted

  // ---- A slot -----------------------------------------------------------------------------------------------

  /** What a slot adds: the executed amount, the entries confirmed (by the ledger or by a check-in), the
      amount still pending and the entries waiting. */
  datatype Outcome = Outcome(executed: int, confirmed: int, ledger: int, fallback: int, pending: int, waiting: int)

  function CheckinAt(checkins: Checkins, id: int, month: int): Option<Checkin> {
    if (id, month) in checkins then Some(checkins[(id, month)]) else None
  }

  /** `_is_user_override_checkin`. */
  predicate Overrides(c: Option<Checkin>) { c.Some? && c.value.status == Executed && c.value.amount.Some? }

  predicate AnyOverride(ids: seq<int>, month: int, checkins: Checkins, n: nat)
    requires n <= |ids|
  {
    n > 0 && (AnyOverride(ids, month, checkins, n - 1) || Overrides(CheckinAt(checkins, ids[n - 1], month)))
  }

  function OverrideSum(ids: seq<int>, month: int, checkins: Checkins, n: nat): int
    requires n <= |ids|
  {
    if n == 0 then 0 else
    var c := CheckinAt(checkins, ids[n - 1], month);
    OverrideSum(ids, month, checkins, n - 1) + if Overrides(c) then ToCents(c.value.amount.value) else 0
  }

  /** Without ledger or override each entry stands for itself. */
  function OneByOne(ids: seq<int>, month: int, checkins: Checkins, amounts: map<(int, int), int>, n: nat): Outcome
    requires n <= |ids|
  {
    if n == 0 then Outcome(0, 0, 0, 0, 0, 0) else
    var o := OneByOne(ids, month, checkins, amounts, n - 1);
    var c := CheckinAt(checkins, ids[n - 1], month);
    if c.None? then o.(pending := o.pending + Get(amounts, (ids[n - 1], month)), waiting := o.waiting + 1)
    else if c.value.status == Skipped then o.(confirmed := o.confirmed + 1, fallback := o.fallback + 1)
    else
      var executed := ToCents(if c.value.amount.Some? then c.value.amount.value else 0);
      o.(executed := o.executed + executed, confirmed := o.confirmed + 1, fallback := o.fallback + 1)
  }

  /** The ledger is authoritative; without it, any override; without either, the entries one by one. */
  function Resolve(ids: seq<int>, month: int, ledger: Option<int>, checkins: Checkins, amounts: map<(int, int), int>): Outcome {
    if ledger.Some? then Outcome(ledger.value, |ids|, |ids|, 0, 0, 0)
    else if AnyOverride(ids, month, checkins, |ids|) then Outcome(OverrideSum(ids, month, checkins, |ids|), |ids|, 0, |ids|, 0, 0)
    else OneByOne(ids, month, checkins, amounts, |ids|)
  }

  method ResolveSlot(ids: seq<int>, month: int, ledger: Option<int>, checkins: Checkins, amounts: map<(int, int), int>) returns (o: Outcome)
    ensures o == Resolve(ids, month, ledger, checkins, amounts)
  {
    hide ToCents;
    if ledger.Some? { return Outcome(ledger.value, |ids|, |ids|, 0, 0, 0); }
    var overrideTotal, anyOverride := 0, false;
    for i := 0 to |ids|
      invariant overrideTotal == OverrideSum(ids, month, checkins, i)
      invariant anyOverride == AnyOverride(ids, month, checkins, i)
    {
      var c := CheckinAt(checkins, ids[i], month);
      if Overrides(c) {
        overrideTotal := overrideTotal + ToCents(c.value.amount.value);
        anyOverride := true;
      }
    }
    if anyOverride { return Outcome(overrideTotal, |ids|, 0, |ids|, 0, 0); }
    o := Outcome(0, 0, 0, 0, 0, 0);
    for i := 0 to |ids|
      invariant o == OneByOne(ids, month, checkins, amounts, i)
    {
      var c := CheckinAt(checkins, ids[i], month);
      if c.None? {
        o := o.(pending := o.pending + Get(amounts, (ids[i], month)), waiting := o.waiting + 1);
        continue;
      }
      o := o.(fallback := o.fallback + 1, confirmed := o.confirmed + 1);
      if c.value.status == Skipped { continue; }
      o := o.(executed := o.executed + ToCents(if c.value.amount.Some? then c.value.amount.value else 0));
    }
  }

  lemma {:induction false} OneByOneCounts(ids: seq<int>, month: int, checkins: Checkins, amounts: map<(int, int), int>, n: nat)
    requires n <= |ids|
    ensures var o := OneByOne(ids, month, checkins, amounts, n);
            o.confirmed + o.waiting == n && o.ledger == 0 && o.fallback == o.confirmed && IsCents(o.executed)
  {
    if n > 0 {
      OneByOneCounts(ids, month, checkins, amounts, n - 1);
      hide ToCents;
    }
  }

  lemma {:induction false} OverrideCents(ids: seq<int>, month: int, checkins: Checkins, n: nat)
    requires n <= |ids|
    ensures IsCents(OverrideSum(ids, month, checkins, n))
  {
    if n > 0 {
      OverrideCents(ids, month, checkins, n - 1);
      hide ToCents;
    }
  }

  /** Every entry of a slot is either confirmed, by the ledger or by a check-in, or waiting. */
  lemma OutcomeCounts(ids: seq<int>, month: int, ledger: Option<int>, checkins: Checkins, amounts: map<(int, int), int>)
    ensures var o := Resolve(ids, month, ledger, checkins, amounts);
            && o.confirmed + o.waiting == |ids| && o.ledger + o.fallback == o.confirmed
            && ((ledger.Some? ==> IsCents(ledger.value)) ==> IsCents(o.executed))
  {
    OneByOneCounts(ids, month, checkins, amounts, |ids|);
    OverrideCents(ids, month, checkins, |ids|);
  }

  /** What a check-in tells of an entry: its amount in cents, skipped ones nothing; when some entry of the slot was
      confirmed with an amount, only such confirmations speak. */
  function Told(checkins: Checkins, id: int, month: int, confirmed: bool): int {
    if (id, month) in checkins && checkins[(id, month)].amount.Some?
       && (if confirmed then checkins[(id, month)].status == Executed else checkins[(id, month)].status != Skipped)
    then ToCents(checkins[(id, month)].amount.value) else 0
  }

  function ToldSum(checkins: Checkins, ids: seq<int>, month: int, confirmed: bool, n: nat): int
    requires n <= |ids|
  {
    if n == 0 then 0 else ToldSum(checkins, ids, month, confirmed, n - 1) + Told(checkins, ids[n - 1], month, confirmed)
  }

  /** Planned amounts of the entries without check-in. */
  function SilentSum(checkins: Checkins, ids: seq<int>, month: int, amounts: map<(int, int), int>, n: nat): int
    requires n <= |ids|
  {
    if n == 0 then 0 else
    SilentSum(checkins, ids, month, amounts, n - 1) + if (ids[n - 1], month) in checkins then 0 else Get(amounts, (ids[n - 1], month))
  }

  ghost predicate ConfirmedWithAmount(checkins: Checkins, ids: seq<int>, month: int, n: nat)
    requires n <= |ids|
  {
    exists i :: 0 <= i < n && (ids[i], month) in checkins && checkins[(ids[i], month)].status == Executed
                && checkins[(ids[i], month)].amount.Some?
  }

  lemma {:induction false} SlotSums(ids: seq<int>, month: int, checkins: Checkins, amounts: map<(int, int), int>, n: nat)
    requires n <= |ids|
    ensures AnyOverride(ids, month, checkins, n) <==> ConfirmedWithAmount(checkins, ids, month, n)
    ensures OverrideSum(ids, month, checkins, n) == ToldSum(checkins, ids, month, true, n)
    ensures OneByOne(ids, month, checkins, amounts, n).executed == ToldSum(checkins, ids, month, false, n)
    ensures OneByOne(ids, month, checkins, amounts, n).pending == SilentSum(checkins, ids, month, amounts, n)
  {
    if n > 0 {
      SlotSums(ids, month, checkins, amounts, n - 1);
      hide RoundHalfUp;
    }
  }

  /** The figures of a slot: with a ledger amount, that amount and nothing pending; otherwise what the check-ins tell
      and, unless some entry was confirmed with an amount, the planned amounts of the entries without check-in. */
  lemma SlotFigures(ids: seq<int>, month: int, ledger: Option<int>, checkins: Checkins, amounts: map<(int, int), int>)
    ensures var o := Resolve(ids, month, ledger, checkins, amounts);
            if ledger.Some? then o.executed == ledger.value && o.pending == 0
            else if ConfirmedWithAmount(checkins, ids, month, |ids|) then
              o.executed == ToldSum(checkins, ids, month, true, |ids|) && o.pending == 0
            else o.executed == ToldSum(checkins, ids, month, false, |ids|) && o.pending == SilentSum(checkins, ids, month, amounts, |ids|)
  {
    SlotSums(ids, month, checkins, amounts, |ids|);
    hide AnyOverride, OverrideSum, OneByOne, ToldSum, SilentSum, ConfirmedWithAmount;
  }

  // ---- All slots --------------------------------------------------------------------------------------------

  datatype Execution = Execution(byMonth: map<int, int>, pending: map<int, int>, confirmed: map<int, int>, ledger: map<int, int>,
                                 fallback: map<int, int>, bySlot: map<Slot, int>)

  /** The plan, the categorised ledger and the check-ins of a year. */
  datatype Year = Year(plan: Plan, ledger: map<Slot, int>, checkins: Checkins)

  function LedgerAt(y: Year, s: Slot): Option<int> { if s in y.ledger then Some(y.ledger[s]) else None }

  function OutcomeAt(y: Year, s: Slot): Outcome { Resolve(IdsAt(y.plan.slots, s), s.2, LedgerAt(y, s), y.checkins, y.plan.amounts) }

  function ExecutedIn(y: Year, done: set<Slot>): map<Slot, int> { map s | s in done :: OutcomeAt(y, s).executed }

  function PendingIn(y: Year, done: set<Slot>): map<Slot, int> { map s | s in done :: OutcomeAt(y, s).pending }

  function ConfirmedIn(y: Year, done: set<Slot>): map<Slot, int> { map s | s in done :: OutcomeAt(y, s).confirmed }

  function LedgerIn(y: Year, done: set<Slot>): map<Slot, int> { map s | s in done :: OutcomeAt(y, s).ledger }

  function FallbackIn(y: Year, done: set<Slot>): map<Slot, int> { map s | s in done :: OutcomeAt(y, s).fallback }

  /** Entries of a month with no ledger, override or check-in of their own. */
  function WaitingIn(y: Year, done: set<Slot>): map<Slot, int> { map s | s in done :: OutcomeAt(y, s).waiting }

  /** The dictionaries after a set of slots. */
  ghost predicate ExecutedTo(y: Year, e: Execution, done: set<Slot>) {
    && e.bySlot == ExecutedIn(y, done)
    && SameMonths(e.byMonth, ExecutedIn(y, done))
    && SameMonths(e.pending, PendingIn(y, done))
    && SameMonths(e.confirmed, ConfirmedIn(y, done))
    && SameMonths(e.ledger, LedgerIn(y, done))
    && SameMonths(e.fallback, FallbackIn(y, done))
  }

  function WithSlot(e: Execution, s: Slot, o: Outcome): Execution {
    Execution(Plus(e.byMonth, s.2, o.executed), Plus(e.pending, s.2, o.pending), Plus(e.confirmed, s.2, o.confirmed),
              Plus(e.ledger, s.2, o.ledger), Plus(e.fallback, s.2, o.fallback), Plus(e.bySlot, s, o.executed))
  }

  lemma MapsGrow(y: Year, done: set<Slot>, s: Slot)
    requires s !in done
    ensures ExecutedIn(y, done + {s}) == Plus(ExecutedIn(y, done), s, OutcomeAt(y, s).executed)
    ensures PendingIn(y, done + {s}) == Plus(PendingIn(y, done), s, OutcomeAt(y, s).pending)
    ensures ConfirmedIn(y, done + {s}) == Plus(ConfirmedIn(y, done), s, OutcomeAt(y, s).confirmed)
    ensures LedgerIn(y, done + {s}) == Plus(LedgerIn(y, done), s, OutcomeAt(y, s).ledger)
    ensures FallbackIn(y, done + {s}) == Plus(FallbackIn(y, done), s, OutcomeAt(y, s).fallback)
  {
    hide OutcomeAt;
  }

  lemma SlotAdded(y: Year, e: Execution, done: set<Slot>, s: Slot)
    requires ExecutedTo(y, e, done) && s !in done
    ensures ExecutedTo(y, WithSlot(e, s, OutcomeAt(y, s)), done + {s})
  {
    var o := OutcomeAt(y, s);
    MapsGrow(y, done, s);
    hide SameMonths, ExecutedIn, PendingIn, ConfirmedIn, LedgerIn, FallbackIn, OutcomeAt;
    SlotAndMonth(e.byMonth, ExecutedIn(y, done), s, o.executed);
    SlotAndMonth(e.pending, PendingIn(y, done), s, o.pending);
    SlotAndMonth(e.confirmed, ConfirmedIn(y, done), s, o.confirmed);
    SlotAndMonth(e.ledger, LedgerIn(y, done), s, o.ledger);
    SlotAndMonth(e.fallback, FallbackIn(y, done), s, o.fallback);
  }

  lemma EmptyMonths()
    ensures SameMonths(map[], map[])
  {
    forall m ensures MonthTotal(map[], m) == 0 {
      assert Part(map[], InMonth(m)) == map[];
    }
  }

  method ExecuteSlot(y: Year, e: Execution, ghost done: set<Slot>, s: Slot) returns (after: Execution)
    requires ExecutedTo(y, e, done) && s !in done
    ensures ExecutedTo(y, after, done + {s})
  {
    var o := ResolveSlot(IdsAt(y.plan.slots, s), s.2, LedgerAt(y, s), y.checkins, y.plan.amounts);
    hide ExecutedTo, Resolve;
    SlotAdded(y, e, done, s);
    after := WithSlot(e, s, o);
  }

  method ExecuteSlots(y: Year) returns (e: Execution)
    ensures ExecutedTo(y, e, y.plan.slots.Keys)
  {
    e := Execution(map[], map[], map[], map[], map[], map[]);
    EmptyMonths();
    assert ExecutedTo(y, e, {});
    hide *;
    var all := y.plan.slots.Keys;
    var left := all;
    assert all - left == {};
    while left != {}
      invariant left <= all && ExecutedTo(y, e, all - left)
      decreases |left|
    {
      var s :| s in left;
      e := ExecuteSlot(y, e, all - left, s);
      assert all - left + {s} == all - (left - {s});
      left := left - {s};
    }
    assert all - left == all;
  }

  /** Ledger slots no entry plans. */
  function Unplanned(y: Year): map<Slot, int> { map s | s in y.ledger && s !in y.plan.slots :: y.ledger[s] }

  method CollectUnbudgeted(y: Year) returns (bySlot: map<Slot, int>, byMonth: map<int, int>)
    ensures bySlot == Unplanned(y) && SameMonths(byMonth, bySlot)
  {
    bySlot, byMonth := map[], map[];
    EmptyMonths();
    hide SameMonths;
    var left := y.ledger.Keys;
    while left != {}
      invariant left <= y.ledger.Keys
      invariant bySlot == map s | s in Unplanned(y) && s !in left :: Unplanned(y)[s]
      invariant SameMonths(byMonth, bySlot)
      decreases |left|
    {
      var s :| s in left;
      left := left - {s};
      if s in y.plan.slots { continue; }
      SlotAndMonth(byMonth, bySlot, s, y.ledger[s]);
      bySlot := Plus(bySlot, s, y.ledger[s]);
      byMonth := Plus(byMonth, s.2, y.ledger[s]);
    }
  }

  // ---- What the figures mean --------------------------------------------------------------------------------

  /** Every categorised ledger slot is counted exactly once: as budgeted execution when some entry plans it,
      as unbudgeted otherwise. */
  lemma LedgerCountedOnce(y: Year, e: Execution, s: Slot)
    requires ExecutedTo(y, e, y.plan.slots.Keys) && s in y.ledger
    ensures if s in y.plan.slots then Get(e.bySlot, s) == y.ledger[s] && Get(Unplanned(y), s) == 0 && s !in Unplanned(y)
            else Get(e.bySlot, s) == 0 && Get(Unplanned(y), s) == y.ledger[s]
    ensures Get(e.bySlot, s) + Get(Unplanned(y), s) == y.ledger[s]
  {
    hide SameMonths;
  }

  /** What check-ins execute: the planned slots without ledger. */
  function CheckedIn(y: Year): map<Slot, int> { map s | s in y.plan.slots && s !in y.ledger :: OutcomeAt(y, s).executed }

  ghost function LedgerAndCheckins(y: Year): map<Slot, int> {
    map s | s in y.ledger.Keys + y.plan.slots.Keys :: Get(y.ledger, s) + Get(CheckedIn(y), s)
  }

  lemma BothAt(y: Year, e: Execution, s: Slot)
    requires ExecutedTo(y, e, y.plan.slots.Keys)
    ensures var both := Get(LedgerAndCheckins(y), s);
            both == Get(y.ledger, s) + Get(CheckedIn(y), s) && both == Get(e.bySlot, s) + Get(Unplanned(y), s)
  {
    if s in y.ledger { LedgerCountedOnce(y, e, s); }
    hide SameMonths, Resolve;
  }

  /** In every month, and over the year, the budgeted and the unbudgeted execution together are the whole
      categorised ledger plus the check-ins of the slots it does not cover; no ledger figure is lost or counted
      twice. */
  lemma ExecutionIsLedgerAndCheckins(y: Year, e: Execution, unbudgetedByMonth: map<int, int>)
    requires ExecutedTo(y, e, y.plan.slots.Keys) && SameMonths(unbudgetedByMonth, Unplanned(y))
    ensures forall m :: Get(e.byMonth, m) + Get(unbudgetedByMonth, m) == MonthTotal(y.ledger, m) + MonthTotal(CheckedIn(y), m)
    ensures Total(e.byMonth) + Total(unbudgetedByMonth) == Total(y.ledger) + Total(CheckedIn(y))
  {
    var both := LedgerAndCheckins(y);
    forall s
      ensures Get(both, s) == Get(y.ledger, s) + Get(CheckedIn(y), s) && Get(both, s) == Get(e.bySlot, s) + Get(Unplanned(y), s)
    {
      BothAt(y, e, s);
      hide *;
    }
    MonthsMakeTotal(e.byMonth, e.bySlot);
    MonthsMakeTotal(unbudgetedByMonth, Unplanned(y));
    assert SameMonths(e.byMonth, e.bySlot);
    hide ExecutedTo, CheckedIn, Unplanned, LedgerAndCheckins, Total, Part;
    TotalAdds(y.ledger, CheckedIn(y), both);
    TotalAdds(e.bySlot, Unplanned(y), both);
    forall m ensures Get(e.byMonth, m) + Get(unbudgetedByMonth, m) == MonthTotal(y.ledger, m) + MonthTotal(CheckedIn(y), m) {
      PartAdds(y.ledger, CheckedIn(y), both, InMonth(m));
      PartAdds(e.bySlot, Unplanned(y), both, InMonth(m));
    }
  }

  lemma {:induction false} OneByOneLast(ids: seq<int>, last: int, month: int, checkins: Checkins, amounts: map<(int, int), int>, n: nat)
    requires n <= |ids|
    ensures OneByOne(ids + [last], month, checkins, amounts, n) == OneByOne(ids, month, checkins, amounts, n)
  {
    hide ToCents;
    if n > 0 { OneByOneLast(ids, last, month, checkins, amounts, n - 1); }
  }

  /** The entries that plan a slot, with no check-in of their own, leave their planned amounts pending. */
  lemma {:induction false} PendingIsPlanned(entries: seq<Planned>, amounts: map<(int, int), int>, checkins: Checkins, slot: Slot, n: nat)
    requires n <= |entries| && (forall i, m :: 0 <= i < |entries| ==> AmountAt(amounts, entries[i], m))
    requires forall i :: 0 <= i < |entries| && Plans(entries[i], slot) ==> (entries[i].id, slot.2) !in checkins
    ensures var o := OneByOne(IdsOf(entries, slot, n), slot.2, checkins, amounts, |IdsOf(entries, slot, n)|);
            o.pending == PlannedIn(entries, slot, n) && o.executed == 0 && o.waiting == |IdsOf(entries, slot, n)|
  {
    if n > 0 {
      PendingIsPlanned(entries, amounts, checkins, slot, n - 1);
      var ids := IdsOf(entries, slot, n - 1);
      var e := entries[n - 1];
      assert AmountAt(amounts, e, slot.2);
      if Plans(e, slot) {
        OneByOneLast(ids, e.id, slot.2, checkins, amounts, |ids|);
        assert IdsOf(entries, slot, n) == ids + [e.id];
        assert (e.id, slot.2) !in checkins;
      } else {
        assert IdsOf(entries, slot, n) == ids;
      }
      hide AmountAt, Plans, ToCents;
    }
  }

  /** A planned slot without ledger and without check-ins is pending with exactly its planned amount. */
  lemma UntouchedSlotIsPending(entries: seq<Planned>, y: Year, slot: Slot)
    requires PlanOk(entries, y.plan) && EntriesOk(entries) && slot !in y.ledger
    requires forall i :: 0 <= i < |entries| && Plans(entries[i], slot) ==> (entries[i].id, slot.2) !in y.checkins
    ensures var o := OutcomeAt(y, slot);
            o.pending == PlannedIn(entries, slot, |entries|) && o.executed == 0 && o.confirmed == 0
  {
    var ids := IdsOf(entries, slot, |entries|);
    assert !Visited(entries, slot, |entries|, 1);
    assert IdsAt(y.plan.slots, slot) == ids;
    PendingIsPlanned(entries, y.plan.amounts, y.checkins, slot, |entries|);
    OneByOneCounts(ids, slot.2, y.checkins, y.plan.amounts, |ids|);
    NoneOverrides(entries, y.checkins, slot, |entries|);
    hide PlanOk, EntriesOk, IdsOf, PlannedIn, OneByOne;
  }

  lemma {:induction false} OverridesLast(ids: seq<int>, last: int, month: int, checkins: Checkins, n: nat)
    requires n <= |ids|
    ensures AnyOverride(ids + [last], month, checkins, n) == AnyOverride(ids, month, checkins, n)
  {
    if n > 0 { OverridesLast(ids, last, month, checkins, n - 1); }
  }

  lemma {:induction false} NoneOverrides(entries: seq<Planned>, checkins: Checkins, slot: Slot, n: nat)
    requires n <= |entries| && forall i :: 0 <= i < |entries| && Plans(entries[i], slot) ==> (entries[i].id, slot.2) !in checkins
    ensures !AnyOverride(IdsOf(entries, slot, n), slot.2, checkins, |IdsOf(entries, slot, n)|)
  {
    if n > 0 {
      NoneOverrides(entries, checkins, slot, n - 1);
      var ids := IdsOf(entries, slot, n - 1);
      if Plans(entries[n - 1], slot) {
        OverridesLast(ids, entries[n - 1].id, slot.2, checkins, |ids|);
        assert (entries[n - 1].id, slot.2) !in checkins;
      } else {
        assert IdsOf(entries, slot, n) == ids;
      }
      hide Plans;
    }
  }

  /** In every month the entries expected less those confirmed are the entries waiting for a check-in, and
      those confirmed are the ones the ledger or a check-in confirms. */
  lemma ExpectedLessConfirmed(entries: seq<Planned>, y: Year, e: Execution, m: int)
    requires PlanOk(entries, y.plan) && ExecutedTo(y, e, y.plan.slots.Keys)
    ensures Get(y.plan.expected, m) - Get(e.confirmed, m) == MonthTotal(WaitingIn(y, y.plan.slots.Keys), m)
    ensures Get(e.confirmed, m) == Get(e.ledger, m) + Get(e.fallback, m)
  {
    var all := y.plan.slots.Keys;
    forall s ensures Get(Sizes(y.plan.slots), s) == Get(ConfirmedIn(y, all), s) + Get(WaitingIn(y, all), s) { CountsAt(y, s); }
    forall s ensures Get(ConfirmedIn(y, all), s) == Get(LedgerIn(y, all), s) + Get(FallbackIn(y, all), s) { CountsAt(y, s); }
    assert SameMonths(y.plan.expected, Sizes(y.plan.slots));
    hide PlannedTo, Sizes, ConfirmedIn, WaitingIn, LedgerIn, FallbackIn, ExecutedIn, PendingIn, Part, Total, CountsAgree;
    PartAdds(ConfirmedIn(y, all), WaitingIn(y, all), Sizes(y.plan.slots), InMonth(m));
    PartAdds(LedgerIn(y, all), FallbackIn(y, all), ConfirmedIn(y, all), InMonth(m));
  }

  ghost predicate CountsAgree(y: Year, s: Slot) {
    var all := y.plan.slots.Keys;
    && Get(Sizes(y.plan.slots), s) == Get(ConfirmedIn(y, all), s) + Get(WaitingIn(y, all), s)
    && Get(ConfirmedIn(y, all), s) == Get(LedgerIn(y, all), s) + Get(FallbackIn(y, all), s)
  }

  lemma CountsAt(y: Year, s: Slot)
    ensures CountsAgree(y, s)
  {
    OutcomeCounts(IdsAt(y.plan.slots, s), s.2, LedgerAt(y, s), y.checkins, y.plan.amounts);
    hide Resolve;
  }

  /** Months add up to the same total as slots. */
  lemma {:induction false} MonthsMakeTotal(byMonth: map<int, int>, bySlot: map<Slot, int>)
    requires SameMonths(byMonth, bySlot)
    ensures Total(byMonth) == Total(bySlot)
    decreases |bySlot|
  {
    if bySlot == map[] {
      forall m ensures Get(byMonth, m) == Get(map[], m) {
        assert Part(bySlot, InMonth(m)) == map[];
        assert Get(byMonth, m) == MonthTotal(bySlot, m);
      }
      TotalAgree(byMonth, map[]);
    } else {
      var s :| s in bySlot;
      var rest := bySlot - {s};
      assert bySlot == Plus(rest, s, bySlot[s]);
      var others := Plus(byMonth, s.2, -bySlot[s]);
      forall m ensures Get(others, m) == MonthTotal(rest, m) {
        assert Get(byMonth, m) == MonthTotal(bySlot, m);
        PartPlus(rest, s, bySlot[s], InMonth(m));
      }
      hide SameMonths;
      MonthsMakeTotal(others, rest);
      TotalPlus(rest, s, bySlot[s]);
      TotalPlus(byMonth, s.2, -bySlot[s]);
    }
  }

  // ---- The breakdown ----------------------------------------------------------------------------------------

  function InCategory(c: string): Slot -> bool { (s: Slot) => s.0 == c }

  function InSubcategory(c: string, u: string): Slot -> bool { (s: Slot) => s.0 == c && s.1 == u }

  /** One measure of the breakdown: by category, by subcategory, by subcategory and month. */
  datatype Sums = Sums(byCategory: map<string, int>, bySubcategory: map<(string, string), int>, cells: map<Slot, int>)

  function Adding(b: Sums, s: Slot, d: int): Sums {
    Sums(Plus(b.byCategory, s.0, d), Plus(b.bySubcategory, (s.0, s.1), d), Plus(b.cells, s, d))
  }

  ghost predicate CategoriesOf(byCategory: map<string, int>, values: map<Slot, int>) {
    forall c :: Get(byCategory, c) == Total(Part(values, InCategory(c)))
  }

  ghost predicate SubcategoriesOf(bySubcategory: map<(string, string), int>, values: map<Slot, int>) {
    forall c, u :: Get(bySubcategory, (c, u)) == Total(Part(values, InSubcategory(c, u)))
  }

  /** The sums are those of a dictionary of slots. */
  ghost predicate SumsOf(b: Sums, values: map<Slot, int>) {
    && CategoriesOf(b.byCategory, values)
    && SubcategoriesOf(b.bySubcategory, values)
    && (forall s :: Get(b.cells, s) == Get(values, s))
    && Total(b.byCategory) == Total(values)
  }

  lemma CategoriesAdd(byCategory: map<string, int>, values: map<Slot, int>, s: Slot, d: int)
    requires CategoriesOf(byCategory, values)
    ensures CategoriesOf(Plus(byCategory, s.0, d), Plus(values, s, d))
  {
    forall c ensures Get(Plus(byCategory, s.0, d), c) == Total(Part(Plus(values, s, d), InCategory(c))) {
      assert Get(byCategory, c) == Total(Part(values, InCategory(c)));
      PartPlus(values, s, d, InCategory(c));
      hide Part, Total;
    }
  }

  lemma SubcategoriesAdd(bySubcategory: map<(string, string), int>, values: map<Slot, int>, s: Slot, d: int)
    requires SubcategoriesOf(bySubcategory, values)
    ensures SubcategoriesOf(Plus(bySubcategory, (s.0, s.1), d), Plus(values, s, d))
  {
    forall c, u ensures Get(Plus(bySubcategory, (s.0, s.1), d), (c, u)) == Total(Part(Plus(values, s, d), InSubcategory(c, u))) {
      assert Get(bySubcategory, (c, u)) == Total(Part(values, InSubcategory(c, u)));
      PartPlus(values, s, d, InSubcategory(c, u));
      hide Part, Total;
    }
  }

  lemma SumsAdd(b: Sums, values: map<Slot, int>, s: Slot, d: int)
    requires SumsOf(b, values)
    ensures SumsOf(Adding(b, s, d), Plus(values, s, d))
  {
    hide CategoriesOf, SubcategoriesOf, Total;
    CategoriesAdd(b.byCategory, values, s, d);
    SubcategoriesAdd(b.bySubcategory, values, s, d);
    forall k ensures Get(Plus(b.cells, s, d), k) == Get(Plus(values, s, d), k) {
      assert Get(b.cells, k) == Get(values, k) && Get(b.cells, s) == Get(values, s);
    }
    TotalPlus(values, s, d);
    TotalPlus(b.byCategory, s.0, d);
    hide Plus, Get;
  }

  lemma SumsAgree(b: Sums, a: map<Slot, int>, v: map<Slot, int>)
    requires SumsOf(b, a) && forall s :: Get(a, s) == Get(v, s)
    ensures SumsOf(b, v)
  {
    forall c ensures Total(Part(a, InCategory(c))) == Total(Part(v, InCategory(c))) { PartAgree(a, v, InCategory(c)); }
    forall c, u ensures Total(Part(a, InSubcategory(c, u))) == Total(Part(v, InSubcategory(c, u))) { PartAgree(a, v, InSubcategory(c, u)); }
    TotalAgree(a, v);
    hide Part, Total;
  }

  /** The values of the slots visited. */
  ghost function Taken(values: map<Slot, int>, done: set<Slot>): map<Slot, int> { map s | s in done :: Get(values, s) }

  lemma TakenGrows(values: map<Slot, int>, done: set<Slot>, s: Slot)
    requires s !in done
    ensures Taken(values, done + {s}) == Plus(Taken(values, done), s, Get(values, s))
  {
  }

  lemma EmptySums()
    ensures SumsOf(Sums(map[], map[], map[]), map[])
  {
    forall c ensures Total(Part(map[], InCategory(c))) == 0 { assert Part(map[], InCategory(c)) == map[]; }
    forall c, u ensures Total(Part(map[], InSubcategory(c, u))) == 0 { assert Part(map[], InSubcategory(c, u)) == map[]; }
  }

  /** `_build_expense_execution_breakdown`: one pass over all slots, skipping those with nothing in them. */
  method BuildBreakdown(planned: map<Slot, int>, budgeted: map<Slot, int>, unbudgeted: map<Slot, int>) returns (p: Sums, b: Sums, u: Sums)
    ensures SumsOf(p, planned) && SumsOf(b, budgeted) && SumsOf(u, unbudgeted)
  {
    p := Sums(map[], map[], map[]);
    b, u := p, p;
    var keys := planned.Keys + budgeted.Keys + unbudgeted.Keys;
    var left := keys;
    EmptySums();
    NothingTaken(planned);
    NothingTaken(budgeted);
    NothingTaken(unbudgeted);
    hide SumsOf, Taken, Adding;
    while left != {}
      invariant left <= keys
      invariant SumsOf(p, Taken(planned, keys - left)) && SumsOf(b, Taken(budgeted, keys - left)) && SumsOf(u, Taken(unbudgeted, keys - left))
      decreases |left|
    {
      var s :| s in left;
      var done := keys - left;
      assert keys - (left - {s}) == done + {s};
      p := AddSlot(p, planned, done, s);
      b := AddSlot(b, budgeted, done, s);
      u := AddSlot(u, unbudgeted, done, s);
      left := left - {s};
    }
    assert keys - left == keys;
    AllTaken(p, planned, keys);
    AllTaken(b, budgeted, keys);
    AllTaken(u, unbudgeted, keys);
  }

  /** A slot with nothing in it opens no bucket; adding its zero would change no figure. */
  method AddSlot(sums: Sums, values: map<Slot, int>, ghost done: set<Slot>, s: Slot) returns (after: Sums)
    requires SumsOf(sums, Taken(values, done)) && s !in done
    ensures SumsOf(after, Taken(values, done + {s}))
  {
    TakenGrows(values, done, s);
    SumsAdd(sums, Taken(values, done), s, Get(values, s));
    if Get(values, s) == 0 {
      ZeroChangesNothing(sums, Taken(values, done), s);
      hide SumsOf, Taken;
      return sums;
    }
    hide SumsOf, Taken;
    after := Adding(sums, s, Get(values, s));
  }

  lemma ZeroChangesNothing(b: Sums, values: map<Slot, int>, s: Slot)
    requires SumsOf(b, values)
    ensures SumsOf(b, Plus(values, s, 0))
  {
    SumsAgree(b, values, Plus(values, s, 0));
  }

  lemma NothingTaken(values: map<Slot, int>)
    ensures Taken(values, {}) == map[]
  {
  }

  lemma AllTaken(b: Sums, values: map<Slot, int>, keys: set<Slot>)
    requires SumsOf(b, Taken(values, keys)) && values.Keys <= keys
    ensures SumsOf(b, values)
  {
    SumsAgree(b, Taken(values, keys), values);
  }

  /** The breakdown by category and the month-by-month figures show the same planned, budgeted and
      unbudgeted execution, in total and slot by slot. */
  method Summarise(entries: seq<Planned>, ledger: map<Slot, int>, checkins: Checkins)
    returns (y: Year, e: Execution, unbudgeted: map<Slot, int>, unbudgetedByMonth: map<int, int>, p: Sums, b: Sums, u: Sums)
    requires EntriesOk(entries)
    ensures PlanOk(entries, y.plan) && y.ledger == ledger && y.checkins == checkins && ExecutedTo(y, e, y.plan.slots.Keys)
    ensures unbudgeted == Unplanned(y) && SameMonths(unbudgetedByMonth, unbudgeted)
    ensures SumsOf(p, y.plan.bySlot) && SumsOf(b, e.bySlot) && SumsOf(u, unbudgeted)
    ensures Total(p.byCategory) == Total(y.plan.byMonth)
    ensures Total(b.byCategory) == Total(e.byMonth)
    ensures Total(u.byCategory) == Total(unbudgetedByMonth)
  {
    hide PlannedTo, SameMonths, EntriesOk;
    var plan := PlanEntries(entries);
    y := Year(plan, ledger, checkins);
    e := ExecuteSlots(y);
    unbudgeted, unbudgetedByMonth := CollectUnbudgeted(y);
    p, b, u := BuildBreakdown(plan.bySlot, e.bySlot, unbudgeted);
    MonthsMakeTotal(plan.byMonth, plan.bySlot);
    MonthsMakeTotal(e.byMonth, e.bySlot);
    MonthsMakeTotal(unbudgetedByMonth, unbudgeted);
  }

  /** The ledger figures being in cents, so is every figure of the breakdown: rounding what is shown changes
      nothing, and shown categories add up to the shown total. */
  lemma BreakdownInCents(y: Year, e: Execution, b: Sums, c: string)
    requires ExecutedTo(y, e, y.plan.slots.Keys) && SumsOf(b, e.bySlot) && forall s :: s in y.ledger ==> IsCents(y.ledger[s])
    ensures ToCents(Get(b.byCategory, c)) == Get(b.byCategory, c) && ToCents(Total(b.byCategory)) == Total(b.byCategory)
  {
    forall s | s in e.bySlot ensures IsCents(e.bySlot[s]) {
      OutcomeCounts(IdsAt(y.plan.slots, s), s.2, LedgerAt(y, s), y.checkins, y.plan.amounts);
      hide Resolve, SameMonths;
    }
    TotalInCents(e.bySlot);
    TotalInCents(Part(e.bySlot, InCategory(c)));
    assert Get(b.byCategory, c) == Total(Part(e.bySlot, InCategory(c)));
    hide SumsOf, ExecutedTo, Part, Total;
  }
}
