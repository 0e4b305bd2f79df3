/** Planned against executed, month by month (`build_expense_monthly_plan_vs_executed_summary` and its income
    twin), and the same figures by category (`_build_expense_execution_breakdown`). */
module PlanVsExecuted {
  import opened Money
  import opened Wrappers
  import opened FiniteSums

  /** Category, subcategory and month. */
  type Slot = (string, string, int)

  /** A budget entry with its monthly distribution; the taxonomy keys are normalised. */
  datatype Planned = Planned(id: int, category: string, subcategory: string, distribution: map<int, int>)

  datatype Status = Executed | Skipped | Estimated

  datatype Checkin = Checkin(status: Status, amount: Option<int>)

  type Checkins = map<(int, int), Checkin>

  predicate InYear(m: int) { 1 <= m <= 12 }

  /** Entries have their own id and plan cents in months of the year. */
  ghost predicate EntriesOk(entries: seq<Planned>) {
    && (forall i, j :: 0 <= i < j < |entries| ==> entries[i].id != entries[j].id)
    && forall i :: 0 <= i < |entries| ==> EntryOk(entries[i])
  }

  predicate EntryOk(e: Planned) { forall m :: m in e.distribution ==> InYear(m) && IsCents(e.distribution[m]) }

  function SlotOf(e: Planned, month: int): Slot { (e.category, e.subcategory, month) }

  predicate Plans(e: Planned, slot: Slot) { SlotOf(e, slot.2) == slot && slot.2 in e.distribution }

  // ---- Planning ---------------------------------------------------------------------------------------------

  /** The entries that plan a slot, in order. */
  function IdsOf(entries: seq<Planned>, slot: Slot, n: nat): seq<int>
    requires n <= |entries|
  {
    if n == 0 then [] else
    IdsOf(entries, slot, n - 1) + if Plans(entries[n - 1], slot) then [entries[n - 1].id] else []
  }

  function PlannedIn(entries: seq<Planned>, slot: Slot, n: nat): int
    requires n <= |entries|
  {
    if n == 0 then 0 else
    PlannedIn(entries, slot, n - 1) + if Plans(entries[n - 1], slot) then entries[n - 1].distribution[slot.2] else 0
  }

  /** What planning accumulates. */
  datatype Plan = Plan(slots: map<Slot, seq<int>>, bySlot: map<Slot, int>, byMonth: map<int, int>, expected: map<int, int>,
                       amounts: map<(int, int), int>)

  function IdsAt(slots: map<Slot, seq<int>>, slot: Slot): seq<int> { if slot in slots then slots[slot] else [] }

  function InMonth(m: int): Slot -> bool { (s: Slot) => s.2 == m }

  ghost function MonthTotal(slots: map<Slot, int>, m: int): int { Total(Part(slots, InMonth(m))) }

  function Sizes(slots: map<Slot, seq<int>>): map<Slot, int> { map s | s in slots :: |slots[s]| }

  ghost predicate SameMonths(byMonth: map<int, int>, bySlot: map<Slot, int>) { forall m :: Get(byMonth, m) == MonthTotal(bySlot, m) }

  /** Months agree with slots: the planned amounts and the number of expected entries. */
  ghost predicate MonthsAgree(p: Plan) { SameMonths(p.byMonth, p.bySlot) && SameMonths(p.expected, Sizes(p.slots)) }

  /** Entry n plans the slot in a month already visited. */
  predicate Visited(entries: seq<Planned>, slot: Slot, n: nat, month: int) { n < |entries| && slot.2 < month && Plans(entries[n], slot) }

  /** The first n entries, and the next one up to a month, have been planned: ids, amounts per slot, amounts
      per entry and month. */
  ghost predicate IdsPlanned(entries: seq<Planned>, slots: map<Slot, seq<int>>, n: nat, month: int)
    requires n <= |entries|
  {
    && (forall s :: IdsAt(slots, s) == IdsOf(entries, s, n) + if Visited(entries, s, n, month) then [entries[n].id] else [])
    && (forall s :: s in slots ==> slots[s] != [])
  }

  ghost predicate SumsPlanned(entries: seq<Planned>, bySlot: map<Slot, int>, n: nat, month: int)
    requires n <= |entries|
  {
    forall s :: Get(bySlot, s) == PlannedIn(entries, s, n) + if Visited(entries, s, n, month) then entries[n].distribution[s.2] else 0
  }

  ghost predicate AmountAt(amounts: map<(int, int), int>, e: Planned, m: int) {
    m in e.distribution ==> (e.id, m) in amounts && amounts[(e.id, m)] == e.distribution[m]
  }

  ghost predicate AmountsPlanned(entries: seq<Planned>, amounts: map<(int, int), int>, n: nat, month: int)
    requires n <= |entries|
  {
    && (forall i, m :: 0 <= i < n ==> AmountAt(amounts, entries[i], m))
    && (forall m :: n < |entries| && m < month ==> AmountAt(amounts, entries[n], m))
  }

  ghost predicate PlannedTo(entries: seq<Planned>, p: Plan, n: nat, month: int)
    requires n <= |entries|
  {
    IdsPlanned(entries, p.slots, n, month) && SumsPlanned(entries, p.bySlot, n, month) && AmountsPlanned(entries, p.amounts, n, month)
  }

  ghost predicate PlanOk(entries: seq<Planned>, p: Plan) { PlannedTo(entries, p, |entries|, 1) && MonthsAgree(p) }

  function Planning(p: Plan, e: Planned, month: int, amount: int): Plan {
    var slot := SlotOf(e, month);
    Plan(p.slots[slot := IdsAt(p.slots, slot) + [e.id]], Plus(p.bySlot, slot, amount), Plus(p.byMonth, month, amount),
         Plus(p.expected, month, 1), p.amounts[(e.id, month) := amount])
  }

  /** Adding to a slot and to its month. */
  lemma SlotAndMonth(byMonth: map<int, int>, bySlot: map<Slot, int>, slot: Slot, d: int)
    requires SameMonths(byMonth, bySlot)
    ensures SameMonths(Plus(byMonth, slot.2, d), Plus(bySlot, slot, d))
  {
    forall m ensures Get(Plus(byMonth, slot.2, d), m) == MonthTotal(Plus(bySlot, slot, d), m) {
      assert Get(byMonth, m) == MonthTotal(bySlot, m);
      PartPlus(bySlot, slot, d, InMonth(m));
      hide Part, Total;
    }
  }

  lemma PlanningAgrees(p: Plan, e: Planned, month: int, amount: int)
    requires MonthsAgree(p)
    ensures MonthsAgree(Planning(p, e, month, amount))
  {
    var slot := SlotOf(e, month);
    assert Sizes(Planning(p, e, month, amount).slots) == Plus(Sizes(p.slots), slot, 1);
    hide SameMonths, Sizes;
    SlotAndMonth(p.byMonth, p.bySlot, slot, amount);
    SlotAndMonth(p.expected, Sizes(p.slots), slot, 1);
  }

  lemma IdsStep(entries: seq<Planned>, slots: map<Slot, seq<int>>, n: nat, month: int)
    requires n < |entries| && IdsPlanned(entries, slots, n, month)
    ensures var slot := SlotOf(entries[n], month);
            if month in entries[n].distribution
            then IdsPlanned(entries, slots[slot := IdsAt(slots, slot) + [entries[n].id]], n, month + 1)
            else IdsPlanned(entries, slots, n, month + 1)
  {
    hide IdsOf;
  }

  lemma SumsStep(entries: seq<Planned>, bySlot: map<Slot, int>, n: nat, month: int)
    requires n < |entries| && SumsPlanned(entries, bySlot, n, month)
    ensures if month in entries[n].distribution
            then SumsPlanned(entries, Plus(bySlot, SlotOf(entries[n], month), entries[n].distribution[month]), n, month + 1)
            else SumsPlanned(entries, bySlot, n, month + 1)
  {
    hide PlannedIn;
  }

  lemma AmountsStep(entries: seq<Planned>, amounts: map<(int, int), int>, n: nat, month: int)
    requires n < |entries| && EntriesOk(entries) && AmountsPlanned(entries, amounts, n, month)
    ensures if month in entries[n].distribution
            then AmountsPlanned(entries, amounts[(entries[n].id, month) := entries[n].distribution[month]], n, month + 1)
            else AmountsPlanned(entries, amounts, n, month + 1)
  {
    if month in entries[n].distribution {
      var after := amounts[(entries[n].id, month) := entries[n].distribution[month]];
      forall i, m | 0 <= i < n ensures AmountAt(after, entries[i], m) {
        assert AmountAt(amounts, entries[i], m) && entries[i].id != entries[n].id;
      }
      forall m | m < month + 1 ensures AmountAt(after, entries[n], m) {
        assert m < month ==> AmountAt(amounts, entries[n], m);
      }
    }
  }

  lemma AllVisited(entries: seq<Planned>, n: nat, slot: Slot)
    requires n < |entries| && EntriesOk(entries)
    ensures Visited(entries, slot, n, 13) == Plans(entries[n], slot) && !Visited(entries, slot, n + 1, 1)
  {
    assert EntryOk(entries[n]) && (n + 1 < |entries| ==> EntryOk(entries[n + 1]));
  }

  lemma NextIds(entries: seq<Planned>, slots: map<Slot, seq<int>>, n: nat)
    requires n < |entries| && EntriesOk(entries) && IdsPlanned(entries, slots, n, 13)
    ensures IdsPlanned(entries, slots, n + 1, 1)
  {
    forall s ensures IdsAt(slots, s) == IdsOf(entries, s, n + 1) && !Visited(entries, s, n + 1, 1) { AllVisited(entries, n, s); }
    hide IdsOf, Visited, EntriesOk;
  }

  lemma NextSums(entries: seq<Planned>, bySlot: map<Slot, int>, n: nat)
    requires n < |entries| && EntriesOk(entries) && SumsPlanned(entries, bySlot, n, 13)
    ensures SumsPlanned(entries, bySlot, n + 1, 1)
  {
    forall s ensures Get(bySlot, s) == PlannedIn(entries, s, n + 1) && !Visited(entries, s, n + 1, 1) { AllVisited(entries, n, s); }
    hide PlannedIn, Visited, EntriesOk;
  }

  lemma NextAmounts(entries: seq<Planned>, amounts: map<(int, int), int>, n: nat)
    requires n < |entries| && EntriesOk(entries) && AmountsPlanned(entries, amounts, n, 13)
    ensures AmountsPlanned(entries, amounts, n + 1, 1)
  {
    assert EntryOk(entries[n]) && (n + 1 < |entries| ==> EntryOk(entries[n + 1]));
    forall m ensures AmountAt(amounts, entries[n], m) {
      if m < 13 { assert AmountAt(amounts, entries[n], m); }
    }
  }

  lemma NextEntry(entries: seq<Planned>, p: Plan, n: nat)
    requires n < |entries| && EntriesOk(entries) && PlannedTo(entries, p, n, 13)
    ensures PlannedTo(entries, p, n + 1, 1)
  {
    hide IdsPlanned, SumsPlanned, AmountsPlanned, EntriesOk;
    NextIds(entries, p.slots, n);
    NextSums(entries, p.bySlot, n);
    NextAmounts(entries, p.amounts, n);
  }

  method PlanEntry(entries: seq<Planned>, start: Plan, n: nat) returns (p: Plan)
    requires EntriesOk(entries) && n < |entries| && PlannedTo(entries, start, n, 1) && MonthsAgree(start)
    ensures PlannedTo(entries, p, n + 1, 1) && MonthsAgree(p)
  {
    p := start;
    for month := 1 to 13
      invariant PlannedTo(entries, p, n, month) && MonthsAgree(p)
    {
      hide IdsPlanned, SumsPlanned, AmountsPlanned, MonthsAgree, EntriesOk;
      IdsStep(entries, p.slots, n, month);
      SumsStep(entries, p.bySlot, n, month);
      AmountsStep(entries, p.amounts, n, month);
      if month in entries[n].distribution {
        PlanningAgrees(p, entries[n], month, entries[n].distribution[month]);
        p := Planning(p, entries[n], month, entries[n].distribution[month]);
      }
    }
    NextEntry(entries, p, n);
  }

  lemma NothingPlanned(entries: seq<Planned>, p: Plan)
    requires EntriesOk(entries) && p == Plan(map[], map[], map[], map[], map[])
    ensures PlannedTo(entries, p, 0, 1) && MonthsAgree(p)
  {
    forall m ensures MonthTotal(p.bySlot, m) == 0 && MonthTotal(Sizes(p.slots), m) == 0 {
      assert Part(p.bySlot, InMonth(m)) == map[] && Part(Sizes(p.slots), InMonth(m)) == map[];
    }
    assert |entries| > 0 ==> EntryOk(entries[0]);
    forall s ensures !Visited(entries, s, 0, 1) {}
  }

  method PlanEntries(entries: seq<Planned>) returns (p: Plan)
    requires EntriesOk(entries)
    ensures PlanOk(entries, p)
  {
    p := Plan(map[], map[], map[], map[], map[]);
    NothingPlanned(entries, p);
    hide PlannedTo, MonthsAgree, EntriesOk;
    for n := 0 to |entries|
      invariant PlannedTo(entries, p, n, 1) && MonthsAgree(p)
    {
      p := PlanEntry(entries, p, n);
    }
  }
}
