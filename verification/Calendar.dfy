/** Months and dates.  A month is its index 12 * year + (month - 1); a date is its proleptic Gregorian
    ordinal, day one being the first of January of year one. */
module Calendar {
  import opened Money

  predicate Leap(year: int) { year % 4 == 0 && (year % 100 != 0 || year % 400 == 0) }

  function DaysBeforeYear(year: int): int {
    var y := year - 1;
    365 * y + y / 4 - y / 100 + y / 400
  }

  function DaysBeforeMonth(leap: bool, month: int): int
    requires 0 <= month < 12
  {
    [0, 31, 59, 90, 120, 151, 181, 212, 243, 273, 304, 334][month] + if leap && month >= 2 then 1 else 0
  }

  /** `monthrange`. */
  function DaysInMonth(m: int): (n: int)
    ensures 28 <= n <= 31
  {
    if m % 12 == 1 then (if Leap(m / 12) then 29 else 28)
    else if m % 12 in {3, 5, 8, 10} then 30
    else 31
  }

  function MonthStart(m: int): int { DaysBeforeYear(m / 12) + DaysBeforeMonth(Leap(m / 12), m % 12) + 1 }

  function MonthEnd(m: int): int { MonthStart(m) + DaysInMonth(m) - 1 }

  /** A quotient goes up by one exactly at the multiples of the divisor. */
  lemma QuotientSteps(y: int, d: int)
    requires d > 0
    ensures y / d - (y - 1) / d == if y % d == 0 then 1 else 0
  {
    var q, r := y / d, y % d;
    assert y == q * d + r;
    if r == 0 {
      QuotientIs(y - 1, d, q - 1, d - 1);
    } else {
      QuotientIs(y - 1, d, q, r - 1);
    }
  }

  lemma QuotientIs(y: int, d: int, q: int, r: int)
    requires 0 <= r < d && y == q * d + r
    ensures y / d == q
  {
    var p, s := y / d, y % d;
    assert p * d + s == q * d + r;
    hide *;
    Separated(p, q, d);
  }

  lemma YearLength(year: int)
    ensures DaysBeforeYear(year + 1) == DaysBeforeYear(year) + if Leap(year) then 366 else 365
  {
    QuotientSteps(year, 4);
    QuotientSteps(year, 100);
    QuotientSteps(year, 400);
    NestedRemainders(year);
    var a, b, c := year / 4, year / 100, year / 400;
    var d, e, f := (year - 1) / 4, (year - 1) / 100, (year - 1) / 400;
    assert DaysBeforeYear(year + 1) == 365 * year + a - b + c;
    assert DaysBeforeYear(year) == 365 * (year - 1) + d - e + f;
  }

  lemma NestedRemainders(year: int)
    ensures year % 400 == 0 ==> year % 100 == 0
    ensures year % 100 == 0 ==> year % 4 == 0
  {
  }

  /** A month ends the day before the next one starts. */
  lemma MonthsAbut(m: int)
    ensures MonthEnd(m) + 1 == MonthStart(m + 1)
  {
    YearLength(m / 12);
    hide DaysBeforeYear;
    if m % 12 == 11 {
      assert (m + 1) / 12 == m / 12 + 1 && (m + 1) % 12 == 0;
    } else {
      assert (m + 1) / 12 == m / 12 && (m + 1) % 12 == m % 12 + 1;
    }
    hide Leap;
  }

  lemma StartBeforeEnd(m: int)
    ensures MonthStart(m) < MonthEnd(m)
  {
    hide MonthStart;
  }

  lemma {:induction false} MonthsAreOrdered(m: int, n: int)
    requires m < n
    ensures MonthEnd(m) < MonthStart(n)
    decreases n - m
  {
    hide MonthStart, MonthEnd;
    MonthsAbut(m);
    StartBeforeEnd(m + 1);
    if m + 1 < n {
      MonthsAreOrdered(m + 1, n);
    }
  }

  /** The count starts with the first of January of year one, and January 2024 starts on day 738886. */
  lemma KnownStarts()
    ensures MonthStart(12) == 1 && MonthStart(24288) == 738886
  {
    assert DaysBeforeYear(1) == 0 && DaysBeforeYear(2024) == 738885;
    hide DaysBeforeYear, Leap;
  }

  /** February is long every four years, but in centuries only every four hundred. */
  lemma KnownFebruaries(year: int)
    ensures DaysInMonth(12 * year + 1) == if year % 400 == 0 || (year % 4 == 0 && year % 100 != 0) then 29 else 28
  {
    NestedRemainders(year);
    assert (12 * year + 1) % 12 == 1 && (12 * year + 1) / 12 == year;
  }
}
