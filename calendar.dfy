/** The slice of Python's `datetime.date` that the weekly-report roll-forward
    uses: proleptic Gregorian dates, their day numbers (`toordinal`), `weekday`,
    `+ timedelta(days=n)`, comparison and `isocalendar`. */
module Calendar {

  /** A calendar date as `datetime.date` holds it. */
  datatype Date = Date(year: int, month: int, day: int)

  /** `datetime.MAXYEAR`; `datetime.MINYEAR` is 1. */
  const MaxYear: int := 9999

  predicate IsLeapYear(y: int) {
    y % 4 == 0 && (y % 100 != 0 || y % 400 == 0)
  }

  function DaysInYear(y: int): int {
    if IsLeapYear(y) then 366 else 365
  }

  function DaysInMonth(y: int, m: int): (n: int)
    requires 1 <= m <= 12
    ensures 28 <= n <= 31
  {
    if m == 2 then (if IsLeapYear(y) then 29 else 28)
    else if m == 4 || m == 6 || m == 9 || m == 11 then 30
    else 31
  }

  /** A day that exists in the proleptic Gregorian calendar, from year 1 on. */
  predicate IsValid(d: Date) {
    1 <= d.year && 1 <= d.month <= 12 && 1 <= d.day <= DaysInMonth(d.year, d.month)
  }

  /** A day that `datetime.date` can hold: `date(y, m, d)` raises ValueError
      outside this set, and `+ timedelta` raises OverflowError past its end. */
  predicate IsRepresentable(d: Date) {
    IsValid(d) && d.year <= MaxYear
  }

  /** Days in the years before `y` (CPython's `_days_before_year`). */
  function DaysBeforeYear(y: int): (r: int)
    requires 1 <= y
    ensures 0 <= r
  {
    if y == 1 then 0 else DaysBeforeYear(y - 1) + DaysInYear(y - 1)
  }

  lemma {:induction false} DaysBeforeYearClosedForm(y: int)
    requires 1 <= y
    ensures var n := y - 1; DaysBeforeYear(y) == 365 * n + n / 4 - n / 100 + n / 400
  {
    if y > 1 {
      DaysBeforeYearClosedForm(y - 1);
      LeapByRemainders(y - 1);
      ClosedFormStep(y - 2, DaysBeforeYear(y - 1), DaysInYear(y - 1));
    }
  }

  lemma ClosedFormStep(m: int, before: int, length: int)
    requires 0 <= m && before == 365 * m + m / 4 - m / 100 + m / 400
    requires length == 365 + (if (m + 1) % 4 == 0 then 1 else 0)
               - (if (m + 1) % 100 == 0 then 1 else 0) + (if (m + 1) % 400 == 0 then 1 else 0)
    ensures before + length == 365 * (m + 1) + (m + 1) / 4 - (m + 1) / 100 + (m + 1) / 400
  {
    DivStep(m);
  }

  /** The leap-year rule counted the way the closed form counts it: one for
      every fourth year, less one for every hundredth, plus one for every
      four-hundredth. */
  lemma LeapByRemainders(n: int)
    ensures DaysInYear(n) == 365 + (if n % 4 == 0 then 1 else 0)
              - (if n % 100 == 0 then 1 else 0) + (if n % 400 == 0 then 1 else 0)
  {
    if n % 400 == 0 {
      var k := n / 400;
      assert n == 100 * (4 * k);
    }
    if n % 100 == 0 {
      var k := n / 100;
      assert n == 4 * (25 * k);
    }
  }

  /** Days in the months of year `y` before month `m` (`_days_before_month`). */
  function DaysBeforeMonth(y: int, m: int): int
    requires 1 <= m <= 12
  {
    var common :=
      if m == 1 then 0 else if m == 2 then 31 else if m == 3 then 59
      else if m == 4 then 90 else if m == 5 then 120 else if m == 6 then 151
      else if m == 7 then 181 else if m == 8 then 212 else if m == 9 then 243
      else if m == 10 then 273 else if m == 11 then 304 else 334;
    common + (if m > 2 && IsLeapYear(y) then 1 else 0)
  }

  /** `date.toordinal()`: 0001-01-01 is day 1. */
  function Ordinal(d: Date): int
    requires IsValid(d)
  {
    DaysBeforeYear(d.year) + DaysBeforeMonth(d.year, d.month) + d.day
  }

  /** The weekday of day number `o`, Monday being 0 (day 1 was a Monday). */
  function WeekdayOfOrdinal(o: int): (w: int)
    ensures 0 <= w < 7
  {
    (o + 6) % 7
  }

  /** `date.weekday()`: Monday is 0 and Sunday is 6. */
  function Weekday(d: Date): (w: int)
    requires IsValid(d)
    ensures 0 <= w < 7
  {
    WeekdayOfOrdinal(Ordinal(d))
  }

  lemma DivStep(n: int)
    requires 0 <= n
    ensures (n + 1) / 4 == n / 4 + (if (n + 1) % 4 == 0 then 1 else 0)
    ensures (n + 1) / 100 == n / 100 + (if (n + 1) % 100 == 0 then 1 else 0)
    ensures (n + 1) / 400 == n / 400 + (if (n + 1) % 400 == 0 then 1 else 0)
  {
  }

  /** A year contributes exactly its own length to the day count. */
  lemma DaysBeforeNextYear(y: int)
    requires 1 <= y
    ensures DaysBeforeYear(y + 1) == DaysBeforeYear(y) + DaysInYear(y)
  {
  }

  /** The day after `d` (`d + timedelta(days=1)` without the range check). */
  function NextDay(d: Date): (r: Date)
    requires IsValid(d)
    ensures IsValid(r) && Ordinal(r) == Ordinal(d) + 1
    ensures r.year == d.year || (r.year == d.year + 1 && r.month == 1 && r.day == 1)
  {
    if d.day < DaysInMonth(d.year, d.month) then Date(d.year, d.month, d.day + 1)
    else if d.month < 12 then Date(d.year, d.month + 1, 1)
    else DaysBeforeNextYear(d.year); Date(d.year + 1, 1, 1)
  }

  /** `d + timedelta(days=n)` without the range check. */
  function AddDays(d: Date, n: nat): (r: Date)
    requires IsValid(d)
    ensures IsValid(r) && Ordinal(r) == Ordinal(d) + n
    ensures d.year <= r.year
    decreases n
  {
    if n == 0 then d else NextDay(AddDays(d, n - 1))
  }

  lemma ShiftMod7(a: int, b: int, n: int)
    requires b == a + n
    ensures WeekdayOfOrdinal(b) == (WeekdayOfOrdinal(a) + n) % 7
  {
    var q, r := (a + 6) / 7, (a + 6) % 7;
    assert b + 6 == (r + n) + 7 * q;
    ModShift(r + n, q);
  }

  /** Adding whole weeks leaves the remainder by 7 unchanged. */
  lemma ModShift(x: int, q: int)
    ensures (x + 7 * q) % 7 == x % 7
  {
  }

  /** A day `n` days after another lies `n` places further round the week. */
  lemma WeekdayOfLater(a: Date, b: Date, n: int)
    requires IsValid(a) && IsValid(b) && Ordinal(b) == Ordinal(a) + n
    ensures Weekday(b) == (Weekday(a) + n) % 7
  {
    ShiftMod7(Ordinal(a), Ordinal(b), n);
  }

  /** Moving `n` days forward moves the weekday `n` places round the week. */
  lemma WeekdayAfter(d: Date, n: nat)
    requires IsValid(d)
    ensures Weekday(AddDays(d, n)) == (Weekday(d) + n) % 7
  {
    WeekdayOfLater(d, AddDays(d, n), n);
  }

  /** Counting on from weekday `x`, the first return to Monday takes `7 - x` days. */
  lemma WeekCompletes(x: int, j: int)
    requires 0 <= x < 7 && 1 <= j <= 7 - x
    ensures (x + j) % 7 == 0 <==> j == 7 - x
  {
  }

  /** Python's `a < b` on dates: year, then month, then day. */
  predicate Before(a: Date, b: Date) {
    a.year < b.year
    || (a.year == b.year && a.month < b.month)
    || (a.year == b.year && a.month == b.month && a.day < b.day)
  }

  lemma DaysBeforeYearMonotone(y1: int, y2: int)
    requires 1 <= y1 < y2
    ensures DaysBeforeYear(y1) + DaysInYear(y1) <= DaysBeforeYear(y2)
    decreases y2 - y1
  {
    DaysBeforeNextYear(y1);
    if y1 + 1 < y2 {
      DaysBeforeYearMonotone(y1 + 1, y2);
    }
  }

  /** Every day of year `d.year` lies between that year's first and last day number. */
  lemma OrdinalInYear(d: Date)
    requires IsValid(d)
    ensures DaysBeforeYear(d.year) < Ordinal(d) <= DaysBeforeYear(d.year) + DaysInYear(d.year)
    ensures DaysBeforeMonth(d.year, d.month) < Ordinal(d) - DaysBeforeYear(d.year)
                                           <= DaysBeforeMonth(d.year, d.month) + DaysInMonth(d.year, d.month)
  {
  }

  lemma DaysBeforeMonthMonotone(y: int, m1: int, m2: int)
    requires 1 <= m1 < m2 <= 12
    ensures DaysBeforeMonth(y, m1) + DaysInMonth(y, m1) <= DaysBeforeMonth(y, m2)
  {
  }

  /** Python's field-by-field comparison of dates orders them by day number. */
  lemma {:induction false} BeforeIsOrdinalOrder(a: Date, b: Date)
    requires IsValid(a) && IsValid(b)
    ensures Before(a, b) <==> Ordinal(a) < Ordinal(b)
    ensures a == b <==> Ordinal(a) == Ordinal(b)
  {
    OrdinalInYear(a);
    OrdinalInYear(b);
    if a.year < b.year {
      DaysBeforeYearMonotone(a.year, b.year);
    } else if b.year < a.year {
      DaysBeforeYearMonotone(b.year, a.year);
    } else if a.month < b.month {
      DaysBeforeMonthMonotone(a.year, a.month, b.month);
    } else if b.month < a.month {
      DaysBeforeMonthMonotone(a.year, b.month, a.month);
    }
  }

  // ----- ISO 8601 week numbers -----

  /** Day number of the Monday that starts ISO week 1 of `y` (CPython's
      `_isoweek1monday`): the Monday of the week holding 1 January, or the
      Monday after it when 1 January falls on Friday, Saturday or Sunday. */
  function IsoWeek1Monday(y: int): int
    requires 1 <= y
  {
    var firstDay := DaysBeforeYear(y) + 1;
    var firstWeekday := (firstDay + 6) % 7;
    firstDay - firstWeekday + (if firstWeekday > 3 then 7 else 0)
  }

  /** The triple `date.isocalendar()` returns. */
  datatype IsoDate = IsoDate(year: int, week: int, weekday: int)

  /** `date.isocalendar()` as CPython computes it. Python's `divmod` floors,
      which for the divisor 7 is what Dafny's `/` and `%` do. */
  function IsoCalendar(d: Date): IsoDate
    requires IsValid(d)
  {
    var today := Ordinal(d);
    var w1 := IsoWeek1Monday(d.year);
    var week, day := (today - w1) / 7, (today - w1) % 7;
    if week < 0 then
      NoWeekBeforeYear1(d);
      var w0 := IsoWeek1Monday(d.year - 1);
      IsoDate(d.year - 1, (today - w0) / 7 + 1, (today - w0) % 7 + 1)
    else if week >= 52 && today >= IsoWeek1Monday(d.year + 1) then
      IsoDate(d.year + 1, 1, day + 1)
    else
      IsoDate(d.year, week + 1, day + 1)
  }

  /** Year 1 begins on a Monday, the first day of its week 1, so no day of
      year 1 lies before week 1. */
  lemma NoWeekBeforeYear1(d: Date)
    requires IsValid(d)
    ensures d.year == 1 ==> IsoWeek1Monday(d.year) <= Ordinal(d)
  {
    if d.year == 1 {
      assert IsoWeek1Monday(1) == 1;
      DaysBeforeYearNonNegative(1);
    }
  }

  /** `date.isocalendar()[1]`. */
  function IsoWeekNumber(d: Date): int
    requires IsValid(d)
  {
    IsoCalendar(d).week
  }

  /** Day number of the Thursday in the Monday-to-Sunday week holding `d`. */
  function ThursdayOf(d: Date): int
    requires IsValid(d)
  {
    Ordinal(d) - Weekday(d) + 3
  }

  /** ISO 8601 (sections 2.2.10 and 4.1.4): a week belongs to the calendar
      year that holds its Thursday. */
  function Iso8601Year(d: Date): int
    requires IsValid(d)
  {
    var thu := ThursdayOf(d);
    if thu <= DaysBeforeYear(d.year) then d.year - 1
    else if thu > DaysBeforeYear(d.year + 1) then d.year + 1
    else d.year
  }

  /** ISO 8601: week 1 is the week holding the year's first Thursday, so the
      week number counts the Thursdays of the year up to this week's. */
  function Iso8601Week(d: Date): int
    requires IsValid(d)
  {
    var y := Iso8601Year(d);
    if y < 1 then 0 else (ThursdayOf(d) - DaysBeforeYear(y) - 1) / 7 + 1
  }

  lemma MondayNearFirstDay(firstDay: int)
    ensures var firstWeekday := (firstDay + 6) % 7;
            var monday := firstDay - firstWeekday + (if firstWeekday > 3 then 7 else 0);
            (monday + 6) % 7 == 0 && firstDay <= monday + 3 <= firstDay + 6
  {
  }

  /** Week 1 starts on a Monday and its Thursday is among the first seven days of the year. */
  lemma Week1MondayFacts(y: int)
    requires 1 <= y
    ensures (IsoWeek1Monday(y) + 6) % 7 == 0
    ensures DaysBeforeYear(y) + 1 <= IsoWeek1Monday(y) + 3 <= DaysBeforeYear(y) + 7
  {
    MondayNearFirstDay(DaysBeforeYear(y) + 1);
  }

  lemma MondayOfWeek(d: Date)
    requires IsValid(d)
    ensures (Ordinal(d) - Weekday(d) + 6) % 7 == 0
    ensures 1 <= Ordinal(d) - Weekday(d)
  {
    OrdinalInYear(d);
    DaysBeforeYearNonNegative(d.year);
    MondayOnOrBefore(Ordinal(d));
  }

  lemma DaysBeforeYearNonNegative(y: int)
    requires 1 <= y
    ensures 0 <= DaysBeforeYear(y)
  {
  }

  /** The Monday on or before day `o` is a Monday, and day 1 or later. */
  lemma MondayOnOrBefore(o: int)
    requires 1 <= o
    ensures (o - WeekdayOfOrdinal(o) + 6) % 7 == 0
    ensures 1 <= o - WeekdayOfOrdinal(o)
  {
    var q := (o + 6) / 7;
    assert o - WeekdayOfOrdinal(o) + 6 == 7 * q;
  }

  /** Two Mondays lie a whole number of weeks apart. */
  lemma WeeksBetweenMondays(a: int, b: int)
    requires (a + 6) % 7 == 0 && (b + 6) % 7 == 0
    ensures (a - b) % 7 == 0
  {
  }

  /** The year of the Thursday of `d`'s week is within one of `d.year`. */
  lemma Iso8601YearBounds(d: Date)
    requires IsValid(d)
    ensures d.year - 1 <= Iso8601Year(d) <= d.year + 1
    ensures 1 <= Iso8601Year(d)
    ensures DaysBeforeYear(Iso8601Year(d)) < ThursdayOf(d) <= DaysBeforeYear(Iso8601Year(d) + 1)
  {
    var y := d.year;
    OrdinalInYear(d);
    MondayOfWeek(d);
    DaysBeforeNextYear(y);
    if y > 1 {
      DaysBeforeNextYear(y - 1);
    }
    DaysBeforeNextYear(y + 1);
  }

  /** Counting weeks from the Monday `w` of week 1 (whose Thursday is among
      the first seven days after `b`) gives the same index as counting
      Thursdays after `b`, as long as this week's Thursday comes after `b`. */
  lemma WeekIndexFromMonday(today: int, wd: int, w: int, b: int)
    requires 0 <= wd < 7
    requires (today - wd + 6) % 7 == 0 && (w + 6) % 7 == 0
    requires b + 1 <= w + 3 <= b + 7
    requires b < today - wd + 3
    ensures (today - w) / 7 == (today - wd + 3 - b - 1) / 7
    ensures 0 <= (today - w) / 7 && (today - w) % 7 == wd
  {
    var monday := today - wd;
    WeeksBetweenMondays(monday, w);
    var k := (monday - w) / 7;
    assert monday - w == 7 * k;
    assert today - w == 7 * k + wd;
    assert today - wd + 3 - b - 1 == 7 * k + (w + 2 - b);
  }

  /** A week whose Thursday falls before week 1's Thursday ends before week 1 starts. */
  lemma BeforeWeek1(today: int, wd: int, w: int, b: int)
    requires 0 <= wd < 7
    requires (today - wd + 6) % 7 == 0 && (w + 6) % 7 == 0
    requires b + 1 <= w + 3
    requires today - wd + 3 <= b
    ensures today < w && (today - w) / 7 < 0
  {
    WeeksBetweenMondays(today - wd, w);
  }

  /** A week whose Thursday falls in the previous year: `isocalendar` finds
      a negative week index and recounts from the previous year's week 1. */
  lemma IsoCalendarPreviousYear(d: Date)
    requires IsValid(d) && 1 < d.year
    requires ThursdayOf(d) <= DaysBeforeYear(d.year)
    ensures IsoCalendar(d) == IsoDate(d.year - 1, Iso8601Week(d), Weekday(d) + 1)
  {
    var y, today, wd := d.year, Ordinal(d), Weekday(d);
    MondayOfWeek(d);
    Iso8601YearBounds(d);
    Week1MondayFacts(y);
    Week1MondayFacts(y - 1);
    BeforeWeek1(today, wd, IsoWeek1Monday(y), DaysBeforeYear(y));
    WeekIndexFromMonday(today, wd, IsoWeek1Monday(y - 1), DaysBeforeYear(y - 1));
  }

  /** A week whose Thursday falls in `d.year` itself. */
  lemma IsoCalendarSameYear(d: Date)
    requires IsValid(d)
    requires DaysBeforeYear(d.year) < ThursdayOf(d) <= DaysBeforeYear(d.year + 1)
    ensures IsoCalendar(d) == IsoDate(d.year, Iso8601Week(d), Weekday(d) + 1)
  {
    var y, today, wd := d.year, Ordinal(d), Weekday(d);
    MondayOfWeek(d);
    Week1MondayFacts(y);
    Week1MondayFacts(y + 1);
    WeekIndexFromMonday(today, wd, IsoWeek1Monday(y), DaysBeforeYear(y));
    BeforeWeek1(today, wd, IsoWeek1Monday(y + 1), DaysBeforeYear(y + 1));
  }

  /** A week whose Thursday falls in the next year: `isocalendar` finds a week
      index of at least 52 and a day on or after the next year's week 1. */
  lemma IsoCalendarNextYear(d: Date)
    requires IsValid(d)
    requires DaysBeforeYear(d.year + 1) < ThursdayOf(d)
    ensures IsoCalendar(d) == IsoDate(d.year + 1, Iso8601Week(d), Weekday(d) + 1)
  {
    var y, today, wd := d.year, Ordinal(d), Weekday(d);
    MondayOfWeek(d);
    OrdinalInYear(d);
    DaysBeforeNextYear(y);
    Week1MondayFacts(y);
    Week1MondayFacts(y + 1);
    var w1, w2 := IsoWeek1Monday(y), IsoWeek1Monday(y + 1);
    NextYearIndex(today, wd, w1, w2, DaysBeforeYear(y), DaysBeforeYear(y + 1));
    IsoCalendarOfNextYear(d);
  }

  /** The arithmetic of the next-year case: from Mondays `w1` and `w2` that
      start week 1 of two consecutive years, a day whose week's Thursday lies
      past the second year's start is 52 weeks or more after `w1`, on or after
      `w2`, and in the first week counted from `b2`. */
  lemma NextYearIndex(today: int, wd: int, w1: int, w2: int, b1: int, b2: int)
    requires 0 <= wd < 7 && (today - wd + 6) % 7 == 0
    requires (w1 + 6) % 7 == 0 && (w2 + 6) % 7 == 0
    requires b1 + 1 <= w1 + 3 <= b1 + 7 && b2 + 1 <= w2 + 3 <= b2 + 7
    requires b1 + 365 <= b2 && today <= b2 && b2 < today - wd + 3
    ensures (today - w1) / 7 >= 52 && (today - w1) % 7 == wd
    ensures today >= w2 && (today - wd + 3 - b2 - 1) / 7 == 0
  {
    MondaysApart(w2, today - wd, 0);
    MondaysApart(w1, w2, 364);
    WeeksBetweenMondays(today - wd, w1);
    var k := (today - wd - w1) / 7;
    assert today - w1 == 7 * k + wd;
  }

  /** `isocalendar`'s next-year branch, once its two tests are known to pass. */
  lemma IsoCalendarOfNextYear(d: Date)
    requires IsValid(d)
    requires var today, w1 := Ordinal(d), IsoWeek1Monday(d.year);
             (today - w1) / 7 >= 52 && (today - w1) % 7 == Weekday(d) && today >= IsoWeek1Monday(d.year + 1)
    requires (ThursdayOf(d) - DaysBeforeYear(d.year + 1) - 1) / 7 == 0 && DaysBeforeYear(d.year + 1) < ThursdayOf(d)
    ensures IsoCalendar(d) == IsoDate(d.year + 1, Iso8601Week(d), Weekday(d) + 1)
  {
  }

  /** Mondays less than a week short of `gap` days apart are at least `gap` apart. */
  lemma MondaysApart(a: int, b: int, gap: int)
    requires (a + 6) % 7 == 0 && (b + 6) % 7 == 0 && gap % 7 == 0
    requires gap - 7 < b - a
    ensures gap <= b - a
  {
    WeeksBetweenMondays(b, a);
  }

  /** CPython's `isocalendar` computes the ISO 8601 week date. */
  lemma IsoCalendarIsIso8601(d: Date)
    requires IsValid(d)
    ensures IsoCalendar(d) == IsoDate(Iso8601Year(d), Iso8601Week(d), Weekday(d) + 1)
  {
    Iso8601YearBounds(d);
    var thu := ThursdayOf(d);
    if thu <= DaysBeforeYear(d.year) {
      IsoCalendarPreviousYear(d);
    } else if thu <= DaysBeforeYear(d.year + 1) {
      IsoCalendarSameYear(d);
    } else {
      IsoCalendarNextYear(d);
    }
  }

  /** ISO week numbers run from 1 to 53. */
  lemma IsoWeekNumberRange(d: Date)
    requires IsValid(d)
    ensures 1 <= IsoWeekNumber(d) <= 53
  {
    IsoCalendarIsIso8601(d);
    Iso8601YearBounds(d);
    DaysBeforeNextYear(Iso8601Year(d));
  }
}
