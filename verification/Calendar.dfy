/** The proleptic Gregorian calendar as Python's `date` counts it.

    Day one is the first of January of year one, a Monday. Ordinals and weekdays are defined by
    counting days and years one by one, which is what they mean; the lemmas give the closed forms the
    standard library uses and show that ordinals order dates as year, month and day do. Holiday
    anchors and month boundaries rest on these. */
module Calendar {

  datatype Date = Date(year: int, month: int, day: int)

  const MIN_YEAR := 1
  const MAX_YEAR := 9999
  const THURSDAY := 3

  predicate IsLeap(year: int) { year % 4 == 0 && (year % 100 != 0 || year % 400 == 0) }

  function DaysInYear(year: int): int { if IsLeap(year) then 366 else 365 }

  function DaysInMonth(year: int, month: int): int {
    if month == 2 then (if IsLeap(year) then 29 else 28)
    else if month == 4 || month == 6 || month == 9 || month == 11 then 30
    else 31
  }

  predicate ValidDate(d: Date) {
    d.year >= MIN_YEAR && 1 <= d.month <= 12 && 1 <= d.day <= DaysInMonth(d.year, d.month)
  }

  /** The days of all years before `year`, counted from year one. */
  function DaysBeforeYear(year: int): (days: int)
    requires year >= MIN_YEAR
    ensures days >= 0
    decreases year
  {
    if year == MIN_YEAR then 0 else DaysBeforeYear(year - 1) + DaysInYear(year - 1)
  }

  /** The closed form that the standard library uses. */
  lemma {:induction false} DaysBeforeYearInClosedForm(year: int)
    requires year >= MIN_YEAR
    ensures var y := year - 1; DaysBeforeYear(year) == y * 365 + y / 4 - y / 100 + y / 400
    decreases year
  {
    if year > MIN_YEAR {
      DaysBeforeYearInClosedForm(year - 1);
      LeapYearsStep(year - 1);
    }
  }

  lemma LeapYearsStep(y: int)
    requires y >= 1
    ensures y / 4 - y / 100 + y / 400 == (y - 1) / 4 - (y - 1) / 100 + (y - 1) / 400 + if IsLeap(y) then 1 else 0
  {
    Step4(y);
    Step100(y);
    Step400(y);
    Multiples(y);
  }

  lemma Step4(y: int)
    requires y >= 1
    ensures y / 4 == (y - 1) / 4 + if y % 4 == 0 then 1 else 0
  {
  }

  lemma Step100(y: int)
    requires y >= 1
    ensures y / 100 == (y - 1) / 100 + if y % 100 == 0 then 1 else 0
  {
  }

  lemma Step400(y: int)
    requires y >= 1
    ensures y / 400 == (y - 1) / 400 + if y % 400 == 0 then 1 else 0
  {
  }

  lemma Multiples(y: int)
    ensures y % 100 == 0 ==> y % 4 == 0
    ensures y % 400 == 0 ==> y % 100 == 0
  {
  }

  function DaysBeforeMonth(year: int, month: int): (days: int)
    requires 1 <= month <= 13
    ensures days >= 0
    decreases month
  {
    if month == 1 then 0 else DaysBeforeMonth(year, month - 1) + DaysInMonth(year, month - 1)
  }

  /** The day's number within its year, from one. */
  function DayOfYear(d: Date): (day: int)
    requires ValidDate(d)
    ensures day >= 1
  {
    DaysBeforeMonth(d.year, d.month) + d.day
  }

  /** The day's number in the calendar, from one. */
  function Ordinal(d: Date): (ordinal: int)
    requires ValidDate(d)
    ensures ordinal >= 1
  {
    DaysBeforeYear(d.year) + DayOfYear(d)
  }

  /** `date.weekday()`, Monday being zero: ordinal one is a Monday, and each day moves on by one. */
  function Weekday(ordinal: int): (weekday: int)
    requires ordinal >= 1
    ensures 0 <= weekday <= 6
    decreases ordinal
  {
    if ordinal == 1 then 0
    else if Weekday(ordinal - 1) == 6 then 0
    else Weekday(ordinal - 1) + 1
  }

  lemma {:induction false} WeekdayInClosedForm(ordinal: int)
    requires ordinal >= 1
    ensures Weekday(ordinal) == (ordinal + 6) % 7
    decreases ordinal
  {
    if ordinal > 1 {
      WeekdayInClosedForm(ordinal - 1);
    }
  }

  lemma SameWeekday(a: int, b: int)
    requires a >= 1 && b >= 1
    ensures Weekday(a) == Weekday(b) <==> (b - a) % 7 == 0
  {
    hide Weekday;
    WeekdayInClosedForm(a);
    WeekdayInClosedForm(b);
  }

  lemma {:induction false} YearsAscend(y: int, z: int)
    requires MIN_YEAR <= y < z
    ensures DaysBeforeYear(y) + DaysInYear(y) <= DaysBeforeYear(z)
    decreases z - y
  {
    if y + 1 < z {
      YearsAscend(y + 1, z);
    }
  }

  lemma {:induction false} MonthsFillTheYear(year: int, month: int)
    requires 1 <= month <= 13
    ensures DaysBeforeMonth(year, month) + (13 - month) * 28 <= DaysInYear(year)
    ensures month == 13 ==> DaysBeforeMonth(year, month) == DaysInYear(year)
    decreases 13 - month
  {
    assert DaysBeforeMonth(year, 13) == DaysInYear(year) by {
      assert DaysBeforeMonth(year, 4) == DaysInYear(year) - 275;
      assert DaysBeforeMonth(year, 7) == DaysInYear(year) - 184;
      assert DaysBeforeMonth(year, 10) == DaysInYear(year) - 92;
    }
    if month < 13 {
      MonthsFillTheYear(year, month + 1);
    }
  }

  /** The months' lengths in one formula, known from calendar arithmetic. */
  lemma {:induction false} DaysBeforeMonthInClosedForm(year: int, month: int)
    requires 1 <= month <= 13
    ensures DaysBeforeMonth(year, month)
         == (367 * month - 362) / 12 - if month <= 2 then 0 else if IsLeap(year) then 1 else 2
    decreases month
  {
    if month > 1 {
      DaysBeforeMonthInClosedForm(year, month - 1);
    }
  }

  lemma DayOfYearRange(d: Date)
    requires ValidDate(d)
    ensures 1 <= DayOfYear(d) <= DaysInYear(d.year)
  {
    MonthsFillTheYear(d.year, d.month + 1);
    MonthsAscend(d.year, 1, d.month);
  }

  lemma {:induction false} MonthsAscend(year: int, m: int, n: int)
    requires 1 <= m <= n <= 13
    ensures m < n ==> DaysBeforeMonth(year, m) + DaysInMonth(year, m) <= DaysBeforeMonth(year, n)
    ensures DaysBeforeMonth(year, m) <= DaysBeforeMonth(year, n)
    decreases n - m
  {
    if m < n {
      MonthsAscend(year, m, n - 1);
    }
  }

  /** Earlier in the calendar: by year, then month, then day. */
  predicate Before(a: Date, b: Date) {
    a.year < b.year || (a.year == b.year && (a.month < b.month || (a.month == b.month && a.day < b.day)))
  }

  /** Ordinals order dates as the calendar does. */
  lemma OrdinalsFollowTheCalendar(a: Date, b: Date)
    requires ValidDate(a) && ValidDate(b)
    ensures Before(a, b) <==> Ordinal(a) < Ordinal(b)
    ensures a == b <==> Ordinal(a) == Ordinal(b)
  {
    if Before(a, b) {
      EarlierDateEarlierOrdinal(a, b);
    } else if Before(b, a) {
      EarlierDateEarlierOrdinal(b, a);
    }
  }

  lemma EarlierDateEarlierOrdinal(a: Date, b: Date)
    requires ValidDate(a) && ValidDate(b) && Before(a, b)
    ensures Ordinal(a) < Ordinal(b)
  {
    DayOfYearRange(a);
    DayOfYearRange(b);
    if a.year < b.year {
      YearsAscend(a.year, b.year);
    } else if a.month < b.month {
      MonthsAscend(a.year, a.month, b.month);
    }
  }

  /** The dates whose midnight a nanosecond timestamp can hold; a batch conversion turns any other
      into a missing date. */
  predicate InTimestampRange(d: Date) {
    !Before(d, Date(1677, 9, 22)) && !Before(Date(2262, 4, 11), d)
  }

  /** The date written as the number 20251231. */
  function Numeral(d: Date): int { 10000 * d.year + 100 * d.month + d.day }

  lemma NumeralsFollowTheCalendar(a: Date, b: Date)
    requires ValidDate(a) && ValidDate(b)
    ensures Before(a, b) <==> Numeral(a) < Numeral(b)
  {
  }

  lemma TimestampRangeExactly(d: Date)
    requires ValidDate(d)
    ensures InTimestampRange(d) <==> 16770922 <= Numeral(d) <= 22620411
  {
    NumeralsFollowTheCalendar(d, Date(1677, 9, 22));
    NumeralsFollowTheCalendar(Date(2262, 4, 11), d);
  }
}
