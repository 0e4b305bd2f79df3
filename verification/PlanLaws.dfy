/** What the plan and its breakdown show, from the budget entries alone: by month, by category and by subcategory they
    add up the monthly distributions of the entries. */
module PlanLaws {
  import opened FiniteSums
  import opened PlanVsExecuted
  import PlanExecution

  /** The slots of one entry. */
  function SlotsOf(e: Planned): (slots: map<Slot, int>)
    ensures forall s :: s in slots <==> s.0 == e.category && s.1 == e.subcategory && s.2 in e.distribution
    ensures forall s :: s in slots ==> slots[s] == e.distribution[s.2]
  {
    map m | m in e.distribution :: (e.category, e.subcategory, m) := e.distribution[m]
  }

  function SlotsTo(entries: seq<Planned>, n: nat): map<Slot, int>
    requires n <= |entries|
  {
    if n == 0 then map[] else Merged(SlotsTo(entries, n - 1), SlotsOf(entries[n - 1]))
  }

  lemma {:induction false} SlotsArePlanned(entries: seq<Planned>, s: Slot, n: nat)
    requires n <= |entries|
    ensures Get(SlotsTo(entries, n), s) == PlannedIn(entries, s, n)
  {
    if n > 0 { SlotsArePlanned(entries, s, n - 1); }
  }

  /** What the first n entries plan in the slots that pass a test. */
  ghost function PlannedWhere(entries: seq<Planned>, keep: Slot -> bool, n: nat): int
    requires n <= |entries|
  {
    if n == 0 then 0 else PlannedWhere(entries, keep, n - 1) + Total(Part(SlotsOf(entries[n - 1]), keep))
  }

  lemma NoPart(keep: Slot -> bool)
    ensures Total(Part(map[], keep)) == 0
  {
    assert Part(map[], keep) == map[];
  }

  lemma {:induction false} PartOfAll(entries: seq<Planned>, keep: Slot -> bool, n: nat)
    requires n <= |entries|
    ensures Total(Part(SlotsTo(entries, n), keep)) == PlannedWhere(entries, keep, n)
  {
    hide Part, Total, Merged, SlotsOf;
    if n == 0 {
      NoPart(keep);
    } else {
      PartOfAll(entries, keep, n - 1);
      MergedPart(SlotsTo(entries, n - 1), SlotsOf(entries[n - 1]), keep);
    }
  }

  lemma {:induction false} SlotsTotal(e: Planned)
    ensures Total(SlotsOf(e)) == Total(e.distribution)
    decreases |e.distribution|
  {
    if e.distribution == map[] {
      assert SlotsOf(e) == map[];
    } else {
      assert (forall m :: m !in e.distribution) ==> e.distribution == map[];
      var m :| m in e.distribution;
      var rest := e.(distribution := e.distribution - {m});
      SlotsTotal(rest);
      assert e.distribution == Plus(rest.distribution, m, e.distribution[m]);
      assert SlotsOf(e) == Plus(SlotsOf(rest), (e.category, e.subcategory, m), e.distribution[m]);
      TotalPlus(rest.distribution, m, e.distribution[m]);
      TotalPlus(SlotsOf(rest), (e.category, e.subcategory, m), e.distribution[m]);
    }
  }

  ghost function MonthSum(entries: seq<Planned>, m: int, n: nat): int
    requires n <= |entries|
  {
    if n == 0 then 0 else MonthSum(entries, m, n - 1) + Get(entries[n - 1].distribution, m)
  }

  /** Annual plans of the entries of a category, or of one subcategory of it. */
  ghost function CategorySum(entries: seq<Planned>, c: string, n: nat): int
    requires n <= |entries|
  {
    if n == 0 then 0 else
    CategorySum(entries, c, n - 1) + if entries[n - 1].category == c then Total(entries[n - 1].distribution) else 0
  }

  ghost function SubcategorySum(entries: seq<Planned>, c: string, u: string, n: nat): int
    requires n <= |entries|
  {
    if n == 0 then 0 else
    SubcategorySum(entries, c, u, n - 1)
    + if entries[n - 1].category == c && entries[n - 1].subcategory == u then Total(entries[n - 1].distribution) else 0
  }

  lemma {:induction false} WhereMonth(entries: seq<Planned>, m: int, n: nat)
    requires n <= |entries|
    ensures PlannedWhere(entries, InMonth(m), n) == MonthSum(entries, m, n)
  {
    if n > 0 {
      WhereMonth(entries, m, n - 1);
      var e := entries[n - 1];
      var part := Part(SlotsOf(e), InMonth(m));
      if m in e.distribution {
        var slot := (e.category, e.subcategory, m);
        assert part == Plus(map[], slot, e.distribution[m]);
        TotalPlus(map[], slot, e.distribution[m]);
      } else {
        assert part == map[];
      }
    }
  }

  lemma {:induction false} WhereCategory(entries: seq<Planned>, c: string, n: nat)
    requires n <= |entries|
    ensures PlannedWhere(entries, PlanExecution.InCategory(c), n) == CategorySum(entries, c, n)
  {
    if n > 0 {
      WhereCategory(entries, c, n - 1);
      var e := entries[n - 1];
      SlotsTotal(e);
      assert Part(SlotsOf(e), PlanExecution.InCategory(c)) == if e.category == c then SlotsOf(e) else map[];
      hide SlotsOf;
    }
  }

  lemma {:induction false} WhereSubcategory(entries: seq<Planned>, c: string, u: string, n: nat)
    requires n <= |entries|
    ensures PlannedWhere(entries, PlanExecution.InSubcategory(c, u), n) == SubcategorySum(entries, c, u, n)
  {
    if n > 0 {
      WhereSubcategory(entries, c, u, n - 1);
      var e := entries[n - 1];
      SlotsTotal(e);
      assert Part(SlotsOf(e), PlanExecution.InSubcategory(c, u)) == if e.category == c && e.subcategory == u then SlotsOf(e) else map[];
      hide SlotsOf;
    }
  }

  lemma PlannedPart(entries: seq<Planned>, bySlot: map<Slot, int>, keep: Slot -> bool)
    requires forall s :: Get(bySlot, s) == PlannedIn(entries, s, |entries|)
    ensures Total(Part(bySlot, keep)) == PlannedWhere(entries, keep, |entries|)
  {
    forall s ensures Get(bySlot, s) == Get(SlotsTo(entries, |entries|), s) { SlotsArePlanned(entries, s, |entries|); }
    hide SlotsTo, PlannedIn, PlannedWhere;
    PartAgree(bySlot, SlotsTo(entries, |entries|), keep);
    PartOfAll(entries, keep, |entries|);
  }

  /** The plan of a month is what all entries plan in it, that of a category or subcategory the annual plans of its
      entries. */
  lemma PlanShows(entries: seq<Planned>, p: Plan, sums: PlanExecution.Sums, m: int, c: string, u: string)
    requires EntriesOk(entries) && PlanOk(entries, p) && PlanExecution.SumsOf(sums, p.bySlot)
    ensures Get(p.byMonth, m) == MonthSum(entries, m, |entries|)
    ensures Get(sums.byCategory, c) == CategorySum(entries, c, |entries|)
    ensures Get(sums.bySubcategory, (c, u)) == SubcategorySum(entries, c, u, |entries|)
  {
    forall s ensures Get(p.bySlot, s) == PlannedIn(entries, s, |entries|) { assert !Visited(entries, s, |entries|, 1); }
    assert Get(p.byMonth, m) == MonthTotal(p.bySlot, m);
    assert Get(sums.byCategory, c) == Total(Part(p.bySlot, PlanExecution.InCategory(c)));
    assert Get(sums.bySubcategory, (c, u)) == Total(Part(p.bySlot, PlanExecution.InSubcategory(c, u)));
    hide PlannedTo, EntriesOk, PlannedIn, PlannedWhere, Part, Total, PlanExecution.SumsOf, SameMonths;
    PlannedPart(entries, p.bySlot, InMonth(m));
    PlannedPart(entries, p.bySlot, PlanExecution.InCategory(c));
    PlannedPart(entries, p.bySlot, PlanExecution.InSubcategory(c, u));
    WhereMonth(entries, m, |entries|);
    WhereCategory(entries, c, |entries|);
    WhereSubcategory(entries, c, u, |entries|);
  }
}
