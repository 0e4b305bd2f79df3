/** Spreading annual plans over months (`planned_expense_monthly_distribution` and its income twin) and
    suggesting amounts for entries without execution (`compute_smart_distribution`). */
module Distributions {
  import opened Money
  import opened Wrappers
  import opened FiniteSums

  // ---- Annual plans -----------------------------------------------------------------------------------------

  datatype TimeProfile = OneOff | StructuralRecurrent | TermRecurrent

  /** A budget entry; `oneOffType` is the expense type, `mirror` a system row of a linked asset or liability. */
  datatype Entry = Entry(id: int, year: int, amount: int, monthlyInput: bool, profile: TimeProfile, oneOffType: bool, mirror: bool,
                         target: Option<int>, termStart: Option<int>, termEndYear: Option<int>, termEndMonth: Option<int>)

  predicate MonthOrNone(m: Option<int>) { m.Some? ==> 1 <= m.value <= 12 }

  /** What the entry forms accept: amounts in cents, months of the year. */
  predicate ValidEntry(e: Entry) { IsCents(e.amount) && MonthOrNone(e.target) && MonthOrNone(e.termStart) && MonthOrNone(e.termEndMonth) }

  function OrElse(m: Option<int>, d: int): int { if m.Some? then m.value else d }

  /** `_effective_annual_amount_for_term_entry`. */
  function EffectiveAmount(e: Entry, year: int): (a: int)
    requires ValidEntry(e)
    ensures IsCents(a) && a >= 0
  {
    if e.amount <= 0 then 0
    else if !e.monthlyInput || e.profile != TermRecurrent || (e.termEndYear.Some? && e.termEndYear.value != year) then e.amount
    else
      var start := OrElse(e.termStart, 1);
      var end := Max(start, OrElse(e.termEndMonth, 12));
      RoundHalfUpSign(e.amount * (end - start + 1), 12 * CENT);
      QuotientToCents(e.amount * (end - start + 1), 12)
  }

  /** `expense_entry_applies_to_fiscal_year`, and for income. */
  predicate Applies(e: Entry, year: int, expense: bool) {
    if expense && e.mirror then e.year == year
    else if e.profile == OneOff then e.year == year
    else e.year <= year && (e.profile != TermRecurrent || e.termEndYear.None? || e.termEndYear.value >= year)
  }

  function FirstMonth(e: Entry, year: int): int { if e.profile == TermRecurrent && e.year == year then OrElse(e.termStart, 1) else 1 }

  function LastMonth(e: Entry, year: int, expense: bool): int {
    if e.profile == TermRecurrent && (e.termEndYear == Some(year) || (expense && e.termEndYear.None? && e.year == year))
    then OrElse(e.termEndMonth, 12) else 12
  }

  /** The same amount in n months. */
  function BaseMonths(base: int, start: int, n: nat): (months: map<int, int>)
    ensures forall m :: m in months <==> start <= m < start + n
    ensures forall m :: m in months ==> months[m] == base
  {
    if n == 0 then map[] else BaseMonths(base, start, n - 1)[start + n - 1 := base]
  }

  /** An amount over the months from start to end: the rounded share each, the last one taking the rest. */
  function Spread(amount: int, start: int, end: int): (s: map<int, int>)
    requires start <= end
    ensures forall m :: m in s <==> start <= m <= end
  {
    var base := QuotientToCents(amount, end - start + 1);
    BaseMonths(base, start, end - start)[end := amount - (end - start) * base]
  }

  function Distribution(e: Entry, year: int, expense: bool): map<int, int>
    requires ValidEntry(e)
  {
    var amount := EffectiveAmount(e, year);
    var start, end := FirstMonth(e, year), LastMonth(e, year, expense);
    if amount <= 0 || !Applies(e, year, expense) then map[]
    else if e.profile == OneOff || (expense && e.oneOffType) then
      if e.target.None? then map[] else map[e.target.value := ToCents(amount)]
    else if !expense && e.target.Some? && start <= e.target.value <= end then map[e.target.value := ToCents(amount)]
    else Spread(amount, start, Max(start, end))
  }

  /** The monthly loop: the same rounded share everywhere, then the end month is corrected. */
  method SpreadEvenly(amount: int, start: int, end: int) returns (distribution: map<int, int>)
    requires start <= end && IsCents(amount)
    ensures distribution == Spread(amount, start, end)
  {
    var months := end - start + 1;
    var base := QuotientToCents(amount, months);
    hide QuotientToCents, IsCents, ToCents;
    distribution := map[];
    var total := 0;
    for i := 0 to months
      invariant distribution == BaseMonths(base, start, i)
      invariant total == i * base
    {
      NextMultiple(i, base);
      distribution := distribution[start + i := base];
      total := total + base;
    }
    var delta := EndDelta(amount, base, months, total);
    if delta != 0 { distribution := distribution[end := Corrected(base, delta)]; }
    DeltaFits(amount, base, months);
  }

  /** What the end month is corrected by. */
  function EndDelta(amount: int, base: int, months: nat, total: int): int { ToCents(amount - total) }

  function Corrected(own: int, delta: int): int { ToCents(own + delta) }

  lemma DeltaFits(amount: int, base: int, months: nat)
    requires months > 0 && IsCents(amount) && IsCents(base)
    ensures var delta := EndDelta(amount, base, months, months * base);
            delta == amount - months * base && Corrected(base, delta) == amount - (months - 1) * base
  {
    CentsMultiple(base, months);
    NextMultiple(months - 1, base);
    CentsDifference(amount, months * base);
    CentsDifference(base, months * base - amount);
    hide ToCents;
  }

  lemma CentsDifference(a: int, b: int)
    requires IsCents(a) && IsCents(b)
    ensures IsCents(a - b) && ToCents(a - b) == a - b
  {
    CentsAdd(a, b);
    hide ToCents, IsCents;
  }

  lemma NextMultiple(n: int, base: int)
    ensures (n + 1) * base == n * base + base
  {
  }

  lemma CentsMultiple(base: int, n: nat)
    requires IsCents(base)
    ensures IsCents(n * base)
  {
    if n == 0 {
      assert 0 * base == 0;
    } else {
      hide IsCents;
      CentsMultiple(base, n - 1);
      NextMultiple(n - 1, base);
      CentsAdd((n - 1) * base, base);
    }
  }

  lemma {:induction false} BaseTotal(base: int, start: int, n: nat)
    ensures Total(BaseMonths(base, start, n)) == n * base
  {
    if n == 0 {
      ZeroTotal(BaseMonths(base, start, 0));
    } else {
      BaseTotal(base, start, n - 1);
      TotalPlus(BaseMonths(base, start, n - 1), start + n - 1, base);
      NextMultiple(n - 1, base);
    }
  }

  /** A spread adds up to its amount; every month but the last is the even share rounded to the cent, and
      the last is within half a cent for each of the other months. */
  lemma SpreadAddsUp(amount: int, start: int, end: int)
    requires start <= end
    ensures var n := end - start + 1;
            var s := Spread(amount, start, end);
            && Total(s) == amount
            && (forall m :: start <= m < end ==> m in s && 2 * Abs(s[m] * n - amount) <= n * CENT)
            && 2 * Abs(s[end] * n - amount) <= (n - 1) * (n * CENT)
  {
    var n := end - start + 1;
    var base := QuotientToCents(amount, n);
    BaseBound(amount, n);
    var last := amount - (n - 1) * base;
    LastBound(amount, base, n);
    hide QuotientToCents;
    var before := BaseMonths(base, start, n - 1);
    assert Spread(amount, start, end) == Plus(before, end, last);
    hide Spread, Abs;
    BaseTotal(base, start, n - 1);
    TotalPlus(before, end, last);
  }

  lemma BaseBound(amount: int, n: int)
    requires n > 0
    ensures 2 * Abs(QuotientToCents(amount, n) * n - amount) <= n * CENT
  {
    var q := RoundHalfUp(amount, n * CENT);
    RoundHalfUpBound(amount, n * CENT);
    hide RoundHalfUp;
    assert q * (n * CENT) == q * CENT * n;
  }

  lemma LastBound(amount: int, base: int, n: int)
    requires n > 0 && 2 * Abs(base * n - amount) <= n * CENT
    ensures 2 * Abs((amount - (n - 1) * base) * n - amount) <= (n - 1) * (n * CENT)
  {
    var d := amount - base * n;
    assert (amount - (n - 1) * base) * n - amount == (n - 1) * d;
    ScaleBound(n - 1, d, n * CENT);
  }

  lemma ScaleBound(k: nat, d: int, bound: int)
    requires 2 * Abs(d) <= bound
    ensures 2 * Abs(k * d) <= k * bound
  {
    if k > 0 {
      ScaleBound(k - 1, d, bound);
      NextMultiple(k - 1, d);
      NextMultiple(k - 1, bound);
    }
  }

  lemma SpreadInCents(amount: int, start: int, end: int)
    requires start <= end && IsCents(amount)
    ensures forall m :: m in Spread(amount, start, end) ==> IsCents(Spread(amount, start, end)[m])
  {
    var base := QuotientToCents(amount, end - start + 1);
    hide QuotientToCents, IsCents;
    CentsMultiple(base, end - start);
    CentsAdd(amount, (end - start) * base);
  }

  /** A plan that spreads at all adds up to its effective annual amount, in cents, over months of the year. */
  lemma PlanAddsUp(e: Entry, year: int, expense: bool)
    requires ValidEntry(e) && Distribution(e, year, expense) != map[]
    ensures Total(Distribution(e, year, expense)) == EffectiveAmount(e, year)
    ensures forall m :: m in Distribution(e, year, expense) ==> 1 <= m <= 12 && IsCents(Distribution(e, year, expense)[m])
  {
    var amount := EffectiveAmount(e, year);
    hide EffectiveAmount;
    var start, end := FirstMonth(e, year), LastMonth(e, year, expense);
    if e.target.Some? {
      assert map[e.target.value := amount] == Plus(map[], e.target.value, amount);
      TotalPlus(map[], e.target.value, amount);
    }
    SpreadAddsUp(amount, start, Max(start, end));
    SpreadInCents(amount, start, Max(start, end));
    hide QuotientToCents, IsCents, ToCents;
  }

  /** Cents over months: the rounded share rounds up exactly when half a month's cent or more is left over. */
  lemma ShareOfCents(c: nat, n: int)
    requires n > 0
    ensures QuotientToCents(c * CENT, n) == (if 2 * (c % n) >= n then c / n + 1 else c / n) * CENT
  {
    var b := if 2 * (c % n) >= n then c / n + 1 else c / n;
    var q, r := c / n, c % n;
    assert c == q * n + r;
    NextMultiple(q, n);
    assert b * (n * CENT) == b * n * CENT;
    hide RoundHalfUp;
    RoundHalfUpIsNearest(c * CENT, n * CENT, b);
  }

  predicate LastGoesNegative(c: nat, n: int)
    requires n > 0
  {
    2 * (c % n) >= n && c / n + c % n < n - 1
  }

  lemma LastOfCents(c: nat, n: int)
    requires n > 0
    ensures c * CENT - (n - 1) * QuotientToCents(c * CENT, n) < 0 <==> LastGoesNegative(c, n)
    ensures QuotientToCents(c * CENT, n) >= 0
  {
    ShareOfCents(c, n);
    Parts(c, n);
    LastIs(c, n, c / n, c % n);
    hide QuotientToCents;
  }

  lemma Parts(c: nat, n: int)
    requires n > 0
    ensures c == c / n * n + c % n && c / n >= 0 && c % n >= 0
  {
  }

  lemma LastIs(c: int, n: int, q: int, r: int)
    requires c == q * n + r
    ensures c * CENT - (n - 1) * ((q + 1) * CENT) == (q + r - (n - 1)) * CENT
    ensures c * CENT - (n - 1) * (q * CENT) == (q + r) * CENT
  {
    InCents(n - 1, q + 1);
    InCents(n - 1, q);
    Leftover(n, q, r);
  }

  lemma InCents(k: int, b: int)
    ensures k * (b * CENT) == k * b * CENT
  {
  }

  /** What the last of n months is left with when the others take q, or q + 1. */
  lemma Leftover(n: int, q: int, r: int)
    ensures q * n + r - (n - 1) * q == q + r
    ensures q * n + r - (n - 1) * (q + 1) == q + r - (n - 1)
  {
  }

  /** Over n months, c cents end with a negative last month exactly when they divide with a remainder of half
      the months or more, yet quotient and remainder together stay below n - 1; 0.07 over a year does: eleven
      cents, then minus four. */
  lemma LastMonthNegative(c: nat, start: int, end: int)
    requires start <= end
    ensures var n := end - start + 1;
            Spread(c * CENT, start, end)[end] < 0 <==> 2 * (c % n) >= n && c / n + c % n < n - 1
    ensures Spread(7 * CENT, 1, 12)[12] == -4 * CENT && forall m :: 1 <= m < 12 ==> Spread(7 * CENT, 1, 12)[m] == CENT
  {
    LastOfCents(c, end - start + 1);
    ShareOfCents(7, 12);
    hide QuotientToCents;
  }

  /** The entry is spread over the months of its window, rather than placed in one month or none. */
  predicate IsSpread(e: Entry, year: int, expense: bool) {
    && e.amount > 0 && Applies(e, year, expense) && !e.profile.OneOff? && !(expense && e.oneOffType)
    && (expense || e.target.None? || !(FirstMonth(e, year) <= e.target.value <= LastMonth(e, year, expense)))
  }

  /** A plan has a negative month exactly when it is spread and its annual amount in cents meets that
      condition over the months of its window. */
  lemma PlanGoesNegative(e: Entry, year: int, expense: bool)
    requires ValidEntry(e)
    ensures var plan := Distribution(e, year, expense);
            var months := Max(FirstMonth(e, year), LastMonth(e, year, expense)) - FirstMonth(e, year) + 1;
            (exists m :: m in plan && plan[m] < 0)
            <==> IsSpread(e, year, expense) && LastGoesNegative(EffectiveAmount(e, year) / CENT, months)
  {
    var amount := EffectiveAmount(e, year);
    var start, end := FirstMonth(e, year), Max(FirstMonth(e, year), LastMonth(e, year, expense));
    var c := amount / CENT;
    assert amount == c * CENT;
    assert e.amount <= 0 ==> amount == 0;
    hide EffectiveAmount, FirstMonth, LastMonth, Applies;
    assert !LastGoesNegative(0, end - start + 1);
    LastOfCents(c, end - start + 1);
    hide QuotientToCents, LastGoesNegative, IsCents;
    var plan := Distribution(e, year, expense);
    if IsSpread(e, year, expense) && amount > 0 {
      assert plan == Spread(amount, start, end);
      assert plan[end] == amount - (end - start) * QuotientToCents(amount, end - start + 1);
      assert end in plan;
    }
  }

  // ---- Which months, how much --------------------------------------------------------------------------------

  /** Months counted from year zero, so that terms are intervals. */
  function Index(year: int, m: int): int { 12 * year + m }

  /** The month lies in the life of a recurrent entry: from its own year, or the start of its term, to the end of its
      term.  An expense without end year still stops at its end month in its first year.  A term that ends before
      it starts in the same year is its start month, and a mirror row fills its year whatever earlier end year it names. */
  predicate Covers(e: Entry, year: int, expense: bool, m: int) {
    var first := Index(e.year, if e.profile.TermRecurrent? && e.termStart.Some? then e.termStart.value else 1);
    var lastMonth := if e.termEndMonth.Some? then e.termEndMonth.value else 12;
    && 1 <= m <= 12 && first <= Index(year, m) && (expense && e.mirror ==> year == e.year)
    && (e.profile.TermRecurrent? ==>
          match e.termEndYear
          case Some(y) => (expense && e.mirror && y < year) || Index(year, m) <= if y == e.year then Max(first, Index(y, lastMonth)) else Index(y, lastMonth)
          case None => expense && year == e.year ==> Index(year, m) <= Max(first, Index(year, lastMonth)))
  }

  /** The year lies in the life of the entry. */
  predicate InYears(e: Entry, year: int, expense: bool) {
    if (expense && e.mirror) || e.profile.OneOff? then year == e.year
    else year >= e.year && (e.profile.TermRecurrent? && e.termEndYear.Some? ==> year <= e.termEndYear.value)
  }

  /** A one-off entry is planned in its target month or not at all, an income with a target month in its life there,
      and anything else in every month of its life. */
  lemma PlanMonths(e: Entry, year: int, expense: bool, m: int)
    requires ValidEntry(e)
    ensures m in Distribution(e, year, expense)
            <==> && EffectiveAmount(e, year) > 0
                 && if e.profile.OneOff? || (expense && e.oneOffType) then e.target == Some(m) && InYears(e, year, expense)
                    else if !expense && e.target.Some? && Covers(e, year, expense, e.target.value) then m == e.target.value
                    else Covers(e, year, expense, m)
  {
    hide EffectiveAmount, ToCents, IsCents, QuotientToCents;
  }

  /** The amount of a year: the annual amount, or for a monthly amount in a term without another end year the part of
      its months, to the nearest cent. */
  lemma AnnualAmount(e: Entry, year: int)
    requires ValidEntry(e)
    ensures var start := if e.termStart.Some? then e.termStart.value else 1;
            var end := if e.termEndMonth.Some? then e.termEndMonth.value else 12;
            if e.amount <= 0 then EffectiveAmount(e, year) == 0
            else if e.monthlyInput && e.profile.TermRecurrent? && (e.termEndYear.None? || e.termEndYear.value == year) then
              NearestCents(EffectiveAmount(e, year), e.amount * (Max(start, end) - start + 1), 12)
            else EffectiveAmount(e, year) == e.amount
  {
    var start := OrElse(e.termStart, 1);
    var months := Max(start, OrElse(e.termEndMonth, 12)) - start + 1;
    QuotientIsNearest(e.amount * months, 12, QuotientToCents(e.amount * months, 12));
    hide QuotientToCents, NearestCents, IsCents;
  }

  /** Every month of a spread but the last is the even share to the nearest cent, a tie away from zero. */
  lemma SpreadShares(amount: int, start: int, end: int, m: int)
    requires start <= m < end
    ensures NearestCents(Spread(amount, start, end)[m], amount, end - start + 1)
  {
    QuotientIsNearest(amount, end - start + 1, QuotientToCents(amount, end - start + 1));
    hide QuotientToCents, NearestCents;
  }

  // ---- Suggestions ------------------------------------------------------------------------------------------

  /** An uncovered entry and its planned amount. */
  datatype Planned = Planned(id: int, amount: int)

  function PlannedTotal(rows: seq<Planned>, n: nat): int
    requires n <= |rows|
  {
    if n == 0 then 0 else PlannedTotal(rows, n - 1) + rows[n - 1].amount
  }

  /** x * scale rounded to cents, where the scale is the exact fraction residual / net. */
  function Scaled(x: int, residual: int, net: int): (c: int)
    requires net != 0
    ensures IsCents(c)
  {
    if net > 0 then QuotientToCents(x * residual, net) else QuotientToCents(-(x * residual), -net)
  }

  function Share(rows: seq<Planned>, i: nat, residual: int, net: int): int
    requires i < |rows| && net != 0
  {
    Max(0, Scaled(rows[i].amount, residual, net))
  }

  function ShareTotal(rows: seq<Planned>, residual: int, net: int, n: nat): int
    requires n <= |rows| && net != 0
  {
    if n == 0 then 0 else ShareTotal(rows, residual, net, n - 1) + Share(rows, n - 1, residual, net)
  }

  /** Amount suggested for row i: the scaled plan, the last row taking the rounding difference. */
  function Suggested(rows: seq<Planned>, i: nat, residual: int, net: int): int
    requires i < |rows| && net != 0
  {
    var own := Share(rows, i, residual, net);
    if i < |rows| - 1 then own
    else Max(0, own + Scaled(PlannedTotal(rows, |rows|), residual, net) - ShareTotal(rows, residual, net, |rows|))
  }

  function SuggestedTotal(rows: seq<Planned>, residual: int, net: int, n: nat): int
    requires n <= |rows| && net != 0
  {
    if n == 0 then 0 else SuggestedTotal(rows, residual, net, n - 1) + Suggested(rows, n - 1, residual, net)
  }

  function IdsOf(rows: seq<Planned>, n: nat): set<int>
    requires n <= |rows|
  {
    set i | 0 <= i < n :: rows[i].id
  }

  ghost predicate DistinctIds(rows: seq<Planned>) { forall i, j :: 0 <= i < j < |rows| ==> rows[i].id != rows[j].id }

  /** One group of `compute_smart_distribution`: scale, then patch the last dictionary item. */
  method ScaleGroup(rows: seq<Planned>, residual: int, net: int) returns (amounts: map<int, int>)
    requires DistinctIds(rows) && net != 0
    ensures amounts.Keys == IdsOf(rows, |rows|)
    ensures forall i :: 0 <= i < |rows| ==> rows[i].id in amounts && amounts[rows[i].id] == Suggested(rows, i, residual, net)
  {
    var actual, planned;
    amounts, actual, planned := ScaleRows(rows, residual, net);
    if |rows| == 0 { return; }
    LastInCents(rows, residual, net);
    hide IsCents, ToCents, Scaled, Share, ShareTotal, PlannedTotal;
    var last := rows[|rows| - 1].id;
    var delta := ToCents(Scaled(planned, residual, net) - actual);
    if delta != 0 { amounts := amounts[last := Max(0, ToCents(amounts[last] + delta))]; }
  }

  method ScaleRows(rows: seq<Planned>, residual: int, net: int) returns (amounts: map<int, int>, actual: int, planned: int)
    requires DistinctIds(rows) && net != 0
    ensures amounts.Keys == IdsOf(rows, |rows|)
    ensures forall j :: 0 <= j < |rows| ==> rows[j].id in amounts && amounts[rows[j].id] == Share(rows, j, residual, net)
    ensures forall j :: 0 <= j < |rows| ==> amounts[rows[j].id] >= 0
    ensures actual == ShareTotal(rows, residual, net, |rows|) && planned == PlannedTotal(rows, |rows|)
  {
    hide Scaled;
    amounts := map[];
    actual, planned := 0, 0;
    for i := 0 to |rows|
      invariant amounts.Keys == IdsOf(rows, i)
      invariant forall j :: 0 <= j < i ==> rows[j].id in amounts && amounts[rows[j].id] == Share(rows, j, residual, net)
      invariant actual == ShareTotal(rows, residual, net, i) && planned == PlannedTotal(rows, i)
    {
      amounts := amounts[rows[i].id := Max(0, Scaled(rows[i].amount, residual, net))];
      actual := actual + amounts[rows[i].id];
      planned := planned + rows[i].amount;
    }
  }

  lemma ShareInCents(rows: seq<Planned>, i: nat, residual: int, net: int)
    requires i < |rows| && net != 0
    ensures IsCents(Share(rows, i, residual, net))
  {
    assert IsCents(0);
    hide Scaled, IsCents;
  }

  lemma {:induction false} SharesInCents(rows: seq<Planned>, residual: int, net: int, n: nat)
    requires n <= |rows| && net != 0
    ensures IsCents(ShareTotal(rows, residual, net, n))
  {
    if n == 0 {
      assert IsCents(0);
    } else {
      hide Share, IsCents;
      SharesInCents(rows, residual, net, n - 1);
      ShareInCents(rows, n - 1, residual, net);
      CentsAdd(ShareTotal(rows, residual, net, n - 1), Share(rows, n - 1, residual, net));
    }
  }

  /** The corrections of the last item are exact. */
  lemma LastInCents(rows: seq<Planned>, residual: int, net: int)
    requires rows != [] && net != 0
    ensures var own := Share(rows, |rows| - 1, residual, net);
            var delta := Scaled(PlannedTotal(rows, |rows|), residual, net) - ShareTotal(rows, residual, net, |rows|);
            ToCents(delta) == delta && ToCents(own + delta) == own + delta
  {
    hide Scaled, Share, ShareTotal, PlannedTotal, IsCents, ToCents;
    SharesInCents(rows, residual, net, |rows|);
    ShareInCents(rows, |rows| - 1, residual, net);
    var delta := Scaled(PlannedTotal(rows, |rows|), residual, net) - ShareTotal(rows, residual, net, |rows|);
    CentsAdd(Scaled(PlannedTotal(rows, |rows|), residual, net), ShareTotal(rows, residual, net, |rows|));
    CentsAdd(Share(rows, |rows| - 1, residual, net), delta);
  }

  predicate NonNegative(amounts: map<int, int>) { forall id :: id in amounts ==> amounts[id] >= 0 }

  function Advised(rows: seq<Planned>, i: nat, residual: Option<int>, net: int): int
    requires i < |rows|
  {
    if residual.None? || net == 0 then rows[i].amount else Suggested(rows, i, residual.value, net)
  }

  lemma SuggestionsNonNegative(rows: seq<Planned>, residual: int, net: int)
    requires net != 0
    ensures forall i :: 0 <= i < |rows| ==> Suggested(rows, i, residual, net) >= 0
  {
    hide Scaled;
  }

  /** `compute_smart_distribution`: without a residual, or when the plans cancel, the plans themselves; a scaled
      suggestion is never negative. */
  method ComputeSmartDistribution(income: seq<Planned>, expense: seq<Planned>, residual: Option<int>)
    returns (incomes: map<int, int>, expenses: map<int, int>)
    requires DistinctIds(income) && DistinctIds(expense)
    ensures var net := PlannedTotal(income, |income|) - PlannedTotal(expense, |expense|);
            && (forall i :: 0 <= i < |income| ==> income[i].id in incomes && incomes[income[i].id] == Advised(income, i, residual, net))
            && (forall i :: 0 <= i < |expense| ==> expense[i].id in expenses && expenses[expense[i].id] == Advised(expense, i, residual, net))
            && (residual.Some? && net != 0 ==> NonNegative(incomes) && NonNegative(expenses))
    ensures incomes.Keys == IdsOf(income, |income|) && expenses.Keys == IdsOf(expense, |expense|)
  {
    var net := PlannedTotal(income, |income|) - PlannedTotal(expense, |expense|);
    hide PlannedTotal, Suggested;
    incomes := AsPlanned(income);
    expenses := AsPlanned(expense);
    if residual.Some? && net != 0 {
      incomes := ScaleGroup(income, residual.value, net);
      expenses := ScaleGroup(expense, residual.value, net);
      SuggestionsNonNegative(income, residual.value, net);
      SuggestionsNonNegative(expense, residual.value, net);
    }
  }

  method AsPlanned(rows: seq<Planned>) returns (amounts: map<int, int>)
    requires DistinctIds(rows)
    ensures amounts.Keys == IdsOf(rows, |rows|)
    ensures forall i :: 0 <= i < |rows| ==> rows[i].id in amounts && amounts[rows[i].id] == rows[i].amount
  {
    amounts := map[];
    for i := 0 to |rows|
      invariant amounts.Keys == IdsOf(rows, i)
      invariant forall j :: 0 <= j < i ==> rows[j].id in amounts && amounts[rows[j].id] == rows[j].amount
    {
      amounts := amounts[rows[i].id := rows[i].amount];
    }
  }

  ghost predicate PositivePlans(rows: seq<Planned>) { forall i :: 0 <= i < |rows| ==> rows[i].amount > 0 }

  /** v is x scaled by residual over net, to the nearest cent. */
  ghost predicate ScalesTo(v: int, x: int, residual: int, net: int) {
    (net > 0 && NearestCents(v, x * residual, net)) || (net < 0 && NearestCents(v, -(x * residual), -net))
  }

  /** Every row but the last of a group is suggested its plan scaled by residual over net, to the nearest cent, or
      nothing when that is negative. */
  lemma SuggestedShare(rows: seq<Planned>, i: nat, residual: int, net: int, v: int)
    requires i < |rows| - 1 && net != 0
    requires ScalesTo(v, rows[i].amount, residual, net)
    ensures Suggested(rows, i, residual, net) == if v > 0 then v else 0
  {
    var num, den := if net > 0 then rows[i].amount * residual else -(rows[i].amount * residual), if net > 0 then net else -net;
    QuotientIsNearest(num, den, v);
    hide QuotientToCents, NearestCents;
  }

  lemma ScaledSign(x: int, residual: int, net: int)
    requires net != 0 && x >= 0
    ensures residual * net >= 0 ==> Scaled(x, residual, net) >= 0
    ensures residual * net <= 0 ==> Scaled(x, residual, net) <= 0
  {
    SignOf(residual, net);
    if net > 0 {
      ProductSign(x, residual);
      RoundHalfUpSign(x * residual, net * CENT);
    } else {
      ProductSign(x, -residual);
      assert -(x * residual) == x * -residual;
      RoundHalfUpSign(x * -residual, -net * CENT);
    }
    hide RoundHalfUp;
  }

  lemma SignOf(residual: int, net: int)
    requires net != 0
    ensures residual * net >= 0 ==> if net > 0 then residual >= 0 else residual <= 0
    ensures residual * net <= 0 ==> if net > 0 then residual <= 0 else residual >= 0
  {
  }

  lemma ProductSign(x: int, y: int)
    requires x >= 0
    ensures y >= 0 ==> x * y >= 0
    ensures y <= 0 ==> x * y <= 0
  {
  }

  lemma {:induction false} PlannedTotalPositive(rows: seq<Planned>, n: nat)
    requires PositivePlans(rows) && n <= |rows|
    ensures PlannedTotal(rows, n) >= 0
  {
    if n > 0 { PlannedTotalPositive(rows, n - 1); }
  }

  /** With positive plans and a negative scale everything suggested is zero. */
  lemma NegativeScaleGivesZero(rows: seq<Planned>, i: nat, residual: int, net: int)
    requires i < |rows| && net != 0 && residual * net < 0 && PositivePlans(rows)
    ensures Suggested(rows, i, residual, net) == 0
  {
    AllZero(rows, residual, net, |rows|);
    PlannedTotalPositive(rows, |rows|);
    ScaledSign(rows[i].amount, residual, net);
    ScaledSign(PlannedTotal(rows, |rows|), residual, net);
    hide Scaled, PlannedTotal;
  }

  lemma {:induction false} AllZero(rows: seq<Planned>, residual: int, net: int, n: nat)
    requires n <= |rows| && net != 0 && residual * net < 0 && PositivePlans(rows)
    ensures ShareTotal(rows, residual, net, n) == 0
  {
    if n > 0 {
      AllZero(rows, residual, net, n - 1);
      ScaledSign(rows[n - 1].amount, residual, net);
      hide Scaled;
    }
  }

  lemma {:induction false} SuggestedPrefix(rows: seq<Planned>, residual: int, net: int, n: nat)
    requires n < |rows| && net != 0
    ensures SuggestedTotal(rows, residual, net, n) == ShareTotal(rows, residual, net, n)
  {
    hide Scaled;
    if n > 0 { SuggestedPrefix(rows, residual, net, n - 1); }
  }

  /** The last row of a group cannot absorb the rounding difference without going below zero. */
  predicate Clamped(rows: seq<Planned>, residual: int, net: int)
    requires rows != [] && net != 0
  {
    Scaled(PlannedTotal(rows, |rows|), residual, net) < ShareTotal(rows, residual, net, |rows| - 1)
  }

  /** A group adds up to its scaled plan exactly when the last row need not be clamped. */
  lemma GroupAddsUp(rows: seq<Planned>, residual: int, net: int)
    requires rows != [] && net != 0
    ensures SuggestedTotal(rows, residual, net, |rows|) == Scaled(PlannedTotal(rows, |rows|), residual, net)
            <==> !Clamped(rows, residual, net)
  {
    SuggestedPrefix(rows, residual, net, |rows| - 1);
    hide Scaled, PlannedTotal;
  }

  /** When neither group is clamped the suggestions explain the residual to the cent: income less expense
      misses it by at most one cent. */
  lemma ResidualExplained(income: seq<Planned>, expense: seq<Planned>, residual: int)
    requires var net := PlannedTotal(income, |income|) - PlannedTotal(expense, |expense|);
             && net != 0
             && (income != [] ==> !Clamped(income, residual, net)) && (expense != [] ==> !Clamped(expense, residual, net))
    ensures var net := PlannedTotal(income, |income|) - PlannedTotal(expense, |expense|);
            Abs(SuggestedTotal(income, residual, net, |income|) - SuggestedTotal(expense, residual, net, |expense|) - residual) <= CENT
  {
    var i, e := PlannedTotal(income, |income|), PlannedTotal(expense, |expense|);
    var net := i - e;
    GroupTotal(income, residual, net);
    GroupTotal(expense, residual, net);
    ScaledBound(i, residual, net);
    ScaledBound(e, residual, net);
    hide Scaled, PlannedTotal, SuggestedTotal, Clamped;
    DifferenceBound(Scaled(i, residual, net), Scaled(e, residual, net), i, e, residual, net);
  }

  lemma GroupTotal(rows: seq<Planned>, residual: int, net: int)
    requires net != 0 && (rows != [] ==> !Clamped(rows, residual, net))
    ensures SuggestedTotal(rows, residual, net, |rows|) == Scaled(PlannedTotal(rows, |rows|), residual, net)
  {
    if rows != [] {
      GroupAddsUp(rows, residual, net);
    } else {
      RoundHalfUpZero(Abs(net) * CENT);
      assert PlannedTotal(rows, 0) * residual == 0;
    }
  }

  lemma ScaledBound(x: int, residual: int, net: int)
    requires net != 0
    ensures 2 * Abs(Scaled(x, residual, net) * net - x * residual) <= Abs(net) * CENT
  {
    hide RoundHalfUp;
    if net > 0 {
      BaseBound(x * residual, net);
    } else {
      BaseBound(-(x * residual), -net);
      var c := Scaled(x, residual, net);
      assert c * -net == -(c * net);
      hide QuotientToCents;
    }
  }

  lemma DifferenceBound(a: int, b: int, i: int, e: int, residual: int, net: int)
    requires net != 0 && net == i - e
    requires 2 * Abs(a * net - i * residual) <= Abs(net) * CENT && 2 * Abs(b * net - e * residual) <= Abs(net) * CENT
    ensures Abs(a - b - residual) <= CENT
  {
    Combine(a, b, i, e, residual, net);
    CancelFactor(a - b - residual, net);
  }

  lemma Combine(a: int, b: int, i: int, e: int, residual: int, net: int)
    requires net == i - e
    ensures (a - b - residual) * net == (a * net - i * residual) - (b * net - e * residual)
  {
    assert (a - b - residual) * net == a * net - b * net - residual * net;
    assert residual * net == i * residual - e * residual;
  }

  lemma CancelFactor(x: int, net: int)
    requires net != 0 && Abs(x * net) <= Abs(net) * CENT
    ensures Abs(x) <= CENT
  {
    if x > CENT {
      if net > 0 { Separated(CENT, x, net); } else { Separated(CENT, x, -net); }
    } else if x < -CENT {
      if net > 0 { Separated(CENT, -x, net); } else { Separated(CENT, -x, -net); }
    }
  }
}
