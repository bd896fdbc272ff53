/**
  The proleptic Gregorian calendar of Python's `date`: years 1 to 9999, day 1 being
  Monday 0001-01-01.
*/
module Calendar {
  import opened Wrappers

  datatype Date = Date(year: int, month: int, day: int)

  predicate Leap(year: int) {
    year % 4 == 0 && (year % 100 != 0 || year % 400 == 0)
  }

  function DaysInMonth(year: int, month: int): int {
    if month == 2 then (if Leap(year) then 29 else 28)
    else if month in {4, 6, 9, 11} then 30 else 31
  }

  /** From January to July, and again from August on, months take turns of 31 and 30 days, but for February. */
  lemma MonthsTakeTurns(year: int, month: int)
    requires 1 <= month <= 12 && month != 2
    ensures DaysInMonth(year, month) == 30 + (month + month / 8) % 2
  {
  }

  /** February is a day longer in every fourth year, but for full centuries that no 400 divides. */
  lemma FebruaryLeaps(year: int)
    ensures DaysInMonth(year, 2) == 28 + (if year % 400 == 0 then 1 else if year % 100 == 0 then 0
                                          else if year % 4 == 0 then 1 else 0)
  {
    if year % 400 == 0 {
      assert year == 4 * (100 * (year / 400)) && year == 100 * (4 * (year / 400));
    }
  }

  predicate ValidDate(d: Date) {
    1 <= d.year <= 9999 && 1 <= d.month <= 12 && 1 <= d.day <= DaysInMonth(d.year, d.month)
  }

  function DaysBeforeYear(year: int): int {
    var y := year - 1;
    365 * y + y / 4 - y / 100 + y / 400
  }

  function DaysBeforeMonth(year: int, month: int): int {
    if month <= 1 then 0 else DaysBeforeMonth(year, month - 1) + DaysInMonth(year, month - 1)
  }

  function Ordinal(d: Date): int {
    DaysBeforeYear(d.year) + DaysBeforeMonth(d.year, d.month) + d.day
  }

  /** Monday is 0 and Sunday 6. */
  function Weekday(d: Date): int {
    (Ordinal(d) + 6) % 7
  }

  function NextDay(d: Date): Date {
    if d.day < DaysInMonth(d.year, d.month) then d.(day := d.day + 1)
    else if d.month < 12 then Date(d.year, d.month + 1, 1)
    else Date(d.year + 1, 1, 1)
  }

  function YearLength(year: int): int {
    if Leap(year) then 366 else 365
  }

  lemma Quarter(y: int)
    ensures (y + 1) / 4 == y / 4 + if (y + 1) % 4 == 0 then 1 else 0
  {
  }

  lemma Century(y: int)
    ensures (y + 1) / 100 == y / 100 + if (y + 1) % 100 == 0 then 1 else 0
    ensures (y + 1) % 100 == 0 ==> (y + 1) % 4 == 0
  {
  }

  lemma FourCenturies(y: int)
    ensures (y + 1) / 400 == y / 400 + if (y + 1) % 400 == 0 then 1 else 0
    ensures (y + 1) % 400 == 0 ==> (y + 1) % 100 == 0
  {
    assert y == 400 * (y / 400) + y % 400;
    assert y % 400 < 399 ==> (y + 1) / 400 == y / 400;
    if (y + 1) % 400 == 0 {
      assert y + 1 == 100 * (4 * ((y + 1) / 400));
    }
  }

  lemma YearStep(year: int)
    ensures DaysBeforeYear(year + 1) == DaysBeforeYear(year) + YearLength(year)
  {
    Quarter(year - 1);
    Century(year - 1);
    FourCenturies(year - 1);
  }

  lemma MonthTotals(year: int)
    ensures DaysBeforeMonth(year, 12) + 31 == YearLength(year)
    ensures DaysBeforeMonth(year, 1) == 0
  {
    assert DaysBeforeMonth(year, 2) == 31;
    assert DaysBeforeMonth(year, 4) == DaysBeforeMonth(year, 3) + 31;
    assert DaysBeforeMonth(year, 6) == DaysBeforeMonth(year, 4) + 61;
    assert DaysBeforeMonth(year, 8) == DaysBeforeMonth(year, 6) + 61;
    assert DaysBeforeMonth(year, 10) == DaysBeforeMonth(year, 8) + 61;
  }

  /** The day after has the next number. */
  lemma NextOrdinal(d: Date)
    requires ValidDate(d)
    ensures Ordinal(NextDay(d)) == Ordinal(d) + 1
    ensures NextDay(d).year <= 9999 ==> ValidDate(NextDay(d))
  {
    if d.month == 12 && d.day == 31 {
      YearStep(d.year);
      MonthTotals(d.year);
      MonthTotals(d.year + 1);
    }
  }

  predicate Before(a: Date, b: Date) {
    a.year < b.year || (a.year == b.year && (a.month < b.month || (a.month == b.month && a.day < b.day)))
  }

  lemma {:induction false} MonthsMonotone(year: int, m1: int, m2: int)
    requires 1 <= m1 < m2 <= 12
    ensures DaysBeforeMonth(year, m1) + DaysInMonth(year, m1) <= DaysBeforeMonth(year, m2)
    decreases m2
  {
    if m1 < m2 - 1 {
      MonthsMonotone(year, m1, m2 - 1);
    }
  }

  lemma {:induction false} YearsMonotone(y1: int, y2: int)
    requires y1 < y2
    ensures DaysBeforeYear(y1) + YearLength(y1) <= DaysBeforeYear(y2)
    decreases y2 - y1
  {
    YearStep(y2 - 1);
    if y1 < y2 - 1 {
      YearsMonotone(y1, y2 - 1);
    }
  }

  lemma DayOfYear(d: Date)
    requires ValidDate(d)
    ensures 1 <= DaysBeforeMonth(d.year, d.month) + d.day <= YearLength(d.year)
  {
    MonthTotals(d.year);
    if 1 < d.month {
      MonthsMonotone(d.year, 1, d.month);
    }
    if d.month < 12 {
      MonthsMonotone(d.year, d.month, 12);
    }
  }

  /** Day numbers order dates as the calendar does. */
  lemma OrdinalMonotone(a: Date, b: Date)
    requires ValidDate(a) && ValidDate(b) && Before(a, b)
    ensures Ordinal(a) < Ordinal(b)
  {
    DayOfYear(a);
    DayOfYear(b);
    if a.year < b.year {
      YearsMonotone(a.year, b.year);
    } else if a.month < b.month {
      MonthsMonotone(a.year, a.month, b.month);
    }
  }

  lemma OrdinalInjective(a: Date, b: Date)
    requires ValidDate(a) && ValidDate(b) && Ordinal(a) == Ordinal(b)
    ensures a == b
  {
    if a != b {
      if Before(a, b) {
        OrdinalMonotone(a, b);
      } else {
        OrdinalMonotone(b, a);
      }
    }
  }

  const LAST := Date(9999, 12, 31)

  lemma OrdinalRange(d: Date)
    requires ValidDate(d)
    ensures 1 <= Ordinal(d) <= Ordinal(LAST)
  {
    DayOfYear(d);
    if d.year > 1 {
      YearsMonotone(1, d.year);
    }
    if d != LAST {
      OrdinalMonotone(d, LAST);
    }
  }

  /** The date with number `n`, counted up from the first day. */
  function FromOrdinal(n: int): (d: Date)
    requires 1 <= n <= Ordinal(LAST)
    ensures ValidDate(d) && Ordinal(d) == n
    decreases n
  {
    if n == 1 then Date(1, 1, 1)
    else
      var d := FromOrdinal(n - 1);
      NextOrdinal(d);
      NextYearFits(d);
      NextDay(d)
  }

  lemma NextYearFits(d: Date)
    requires ValidDate(d) && Ordinal(d) < Ordinal(LAST)
    ensures NextDay(d).year <= 9999
  {
  }

  /** `d - timedelta(days)`; `None` is the overflow before year 1. */
  function MinusDays(d: Date, days: nat): (r: Option<Date>)
    requires ValidDate(d)
    ensures r.Some? <==> Ordinal(d) - days >= 1
    ensures r.Some? ==> ValidDate(r.value) && Ordinal(r.value) == Ordinal(d) - days
  {
    OrdinalRange(d);
    if Ordinal(d) - days < 1 then None else Some(FromOrdinal(Ordinal(d) - days))
  }
}
