/**
  UTC civil dates in the proleptic Gregorian calendar: the part of Go's time package the
  core relies on (Day, Month, Weekday, AddDate with a day offset, Before/After, and the
  "Jan" layout element).
*/
module Civil {

  datatype Date = Date(year: int, month: int, day: int)

  predicate IsLeapYear(y: int)
  {
    y % 4 == 0 && (y % 100 != 0 || y % 400 == 0)
  }

  function DaysIn(month: int, year: int): (n: int)
    requires 1 <= month <= 12
    ensures 28 <= n <= 31
  {
    if month == 2 then (if IsLeapYear(year) then 29 else 28)
    else if month == 4 || month == 6 || month == 9 || month == 11 then 30
    else 31
  }

  predicate IsValid(d: Date)
  {
    1 <= d.month <= 12 && 1 <= d.day <= DaysIn(d.month, d.year)
  }

  /** A date that exists in the calendar: what a time.Time's Date() can return. */
  type CivilDate = d: Date | IsValid(d) witness Date(1970, 1, 1)

  /** Days in the months before `month`; month 13 stands for the end of the year. */
  function DaysBeforeMonth(month: int, year: int): int
    requires 1 <= month <= 13
  {
    var common := [0, 31, 59, 90, 120, 151, 181, 212, 243, 273, 304, 334, 365][month - 1];
    if month > 2 && IsLeapYear(year) then common + 1 else common
  }

  function LeapYearsBefore(y: int): int
  {
    (y - 1) / 4 - (y - 1) / 100 + (y - 1) / 400
  }

  function DaysBeforeYear(y: int): int
  {
    365 * (y - 1970) + LeapYearsBefore(y) - LeapYearsBefore(1970)
  }

  /** Days from 1970-01-01 (day 0) to d; negative before it. */
  function DayNumber(d: CivilDate): int
  {
    DaysBeforeYear(d.year) + DaysBeforeMonth(d.month, d.year) + d.day - 1
  }

  /** time.Weekday: Sunday is 0 and Saturday 6; 1970-01-01 was a Thursday. */
  function Weekday(d: CivilDate): (w: int)
    ensures 0 <= w < 7
  {
    (DayNumber(d) + 4) % 7
  }

  function NextDay(d: CivilDate): CivilDate
  {
    if d.day < DaysIn(d.month, d.year) then Date(d.year, d.month, d.day + 1)
    else if d.month < 12 then Date(d.year, d.month + 1, 1)
    else Date(d.year + 1, 1, 1)
  }

  function PrevDay(d: CivilDate): CivilDate
  {
    if d.day > 1 then Date(d.year, d.month, d.day - 1)
    else if d.month > 1 then Date(d.year, d.month - 1, DaysIn(d.month - 1, d.year))
    else Date(d.year - 1, 12, 31)
  }

  /** time.AddDate(0, 0, n) on a UTC date: move n days, rolling over months and years. */
  function AddDays(d: CivilDate, n: int): CivilDate
    decreases if n < 0 then -n else n
  {
    if n == 0 then d
    else if n > 0 then AddDays(NextDay(d), n - 1)
    else AddDays(PrevDay(d), n + 1)
  }

  /** time.Time.Before on two UTC midnights. */
  predicate Before(a: CivilDate, b: CivilDate)
  {
    a.year < b.year
    || (a.year == b.year && (a.month < b.month || (a.month == b.month && a.day < b.day)))
  }

  /** The month names of the layout element "Jan". */
  function MonthAbbrev(month: int): (s: string)
    requires 1 <= month <= 12
    ensures |s| == 3
  {
    ["Jan", "Feb", "Mar", "Apr", "May", "Jun", "Jul", "Aug", "Sep", "Oct", "Nov", "Dec"][month - 1]
  }

  lemma MonthAbbrevInjective(a: int, b: int)
    requires 1 <= a <= 12 && 1 <= b <= 12
    requires MonthAbbrev(a) == MonthAbbrev(b)
    ensures a == b
  {
    var names := ["Jan", "Feb", "Mar", "Apr", "May", "Jun", "Jul", "Aug", "Sep", "Oct", "Nov", "Dec"];
    assert forall i, j :: 0 <= i < j < 12 ==> names[i] != names[j];
  }

  lemma LeapYearsStep(y: int)
    ensures LeapYearsBefore(y + 1) - LeapYearsBefore(y) == if IsLeapYear(y) then 1 else 0
  {
    assert y / 4 - (y - 1) / 4 == if y % 4 == 0 then 1 else 0;
    assert y / 100 - (y - 1) / 100 == if y % 100 == 0 then 1 else 0;
    assert y / 400 - (y - 1) / 400 == if y % 400 == 0 then 1 else 0;
    assert y % 400 == 0 ==> y % 100 == 0 && y % 4 == 0;
    assert y % 100 == 0 ==> y % 4 == 0;
  }

  lemma DaysBeforeYearStep(y: int)
    ensures DaysBeforeYear(y + 1) == DaysBeforeYear(y) + DaysBeforeMonth(13, y)
  {
    LeapYearsStep(y);
  }

  lemma DaysBeforeMonthStep(m: int, y: int)
    requires 1 <= m <= 12
    ensures DaysBeforeMonth(m + 1, y) == DaysBeforeMonth(m, y) + DaysIn(m, y)
  {
  }

  /** The day after d is one day number later. */
  lemma NextDayNumber(d: CivilDate)
    ensures DayNumber(NextDay(d)) == DayNumber(d) + 1
  {
    if d.day == DaysIn(d.month, d.year) {
      DaysBeforeMonthStep(d.month, d.year);
      if d.month == 12 {
        DaysBeforeYearStep(d.year);
      }
    }
  }

  lemma NextOfPrevDay(d: CivilDate)
    ensures NextDay(PrevDay(d)) == d
  {
  }

  lemma PrevDayNumber(d: CivilDate)
    ensures DayNumber(PrevDay(d)) == DayNumber(d) - 1
  {
    NextOfPrevDay(d);
    NextDayNumber(PrevDay(d));
  }

  /** Adding n days moves the day number by exactly n, in both directions. */
  lemma {:induction false} AddDaysNumber(d: CivilDate, n: int)
    ensures DayNumber(AddDays(d, n)) == DayNumber(d) + n
    decreases if n < 0 then -n else n
  {
    if n > 0 {
      assert AddDays(d, n) == AddDays(NextDay(d), n - 1);
      NextDayNumber(d);
      AddDaysNumber(NextDay(d), n - 1);
    } else if n < 0 {
      assert AddDays(d, n) == AddDays(PrevDay(d), n + 1);
      PrevDayNumber(d);
      AddDaysNumber(PrevDay(d), n + 1);
    }
  }

  lemma {:induction false} DaysBeforeMonthMonotone(a: int, b: int, y: int)
    requires 1 <= a < b <= 13
    ensures DaysBeforeMonth(a, y) + DaysIn(a, y) <= DaysBeforeMonth(b, y)
    decreases b - a
  {
    DaysBeforeMonthStep(a, y);
    if a + 1 < b {
      DaysBeforeMonthMonotone(a + 1, b, y);
    }
  }

  lemma {:induction false} DaysBeforeYearMonotone(a: int, b: int)
    requires a < b
    ensures DaysBeforeYear(a + 1) <= DaysBeforeYear(b)
    decreases b - a
  {
    if a + 1 < b {
      DaysBeforeYearStep(a + 1);
      DaysBeforeYearMonotone(a + 1, b);
    }
  }

  lemma DayNumberWithinYear(d: CivilDate)
    ensures DaysBeforeYear(d.year) <= DayNumber(d) < DaysBeforeYear(d.year + 1)
  {
    DaysBeforeYearStep(d.year);
    DaysBeforeMonthMonotone(d.month, 13, d.year);
  }

  /** Calendar order and day-number order agree (one direction). */
  lemma BeforeHasSmallerDayNumber(a: CivilDate, b: CivilDate)
    requires Before(a, b)
    ensures DayNumber(a) < DayNumber(b)
  {
    if a.year < b.year {
      DayNumberWithinYear(a);
      DayNumberWithinYear(b);
      DaysBeforeYearMonotone(a.year, b.year);
    } else if a.month < b.month {
      DaysBeforeMonthMonotone(a.month, b.month, a.year);
    }
  }

  /** time.Before on dates is exactly "earlier day number", both directions. */
  lemma BeforeIsEarlierDay(a: CivilDate, b: CivilDate)
    ensures Before(a, b) <==> DayNumber(a) < DayNumber(b)
  {
    if Before(a, b) {
      BeforeHasSmallerDayNumber(a, b);
    } else if a != b {
      BeforeHasSmallerDayNumber(b, a);
    }
  }

  /** A day number names one date only. */
  lemma DayNumberInjective(a: CivilDate, b: CivilDate)
    requires DayNumber(a) == DayNumber(b)
    ensures a == b
  {
    if a != b {
      if Before(a, b) {
        BeforeHasSmallerDayNumber(a, b);
      } else {
        BeforeHasSmallerDayNumber(b, a);
      }
    }
  }
}
