// The six-month cutoff: calendar arithmetic with a floored month index.

module Cutoff {
  datatype Date = Date(year: int, month: int, day: int)

  predicate Leap(year: int) { year % 4 == 0 && (year % 100 != 0 || year % 400 == 0) }

  function DaysInMonth(year: int, month: int): int {
    if month == 2 then (if Leap(year) then 29 else 28)
    else if month == 4 || month == 6 || month == 9 || month == 11 then 30
    else 31
  }

  predicate Valid(d: Date) {
    1 <= d.year && 1 <= d.month <= 12 && 1 <= d.day <= DaysInMonth(d.year, d.month)
  }

  /** The days of a year before its month. */
  function DaysBeforeMonth(year: int, month: int): int
    requires 1 <= month <= 13
  {
    if month == 1 then 0 else DaysBeforeMonth(year, month - 1) + DaysInMonth(year, month - 1)
  }

  /** The proleptic Gregorian day number. */
  function DayNumber(d: Date): int
    requires 1 <= d.month <= 12
  {
    var y := d.year - 1;
    365 * y + y / 4 - y / 100 + y / 400 + DaysBeforeMonth(d.year, d.month) + d.day
  }

  predicate Before(a: Date, b: Date) {
    a.year < b.year || (a.year == b.year && (a.month < b.month || (a.month == b.month && a.day <= b.day)))
  }

  /** Division and remainder round towards minus infinity, as Python's do. */
  function SixMonthCutoff(today: Date): Date {
    var monthIndex := today.month - 1 - 6;
    var year := today.year + monthIndex / 12;
    var month := monthIndex % 12 + 1;
    var last := DaysInMonth(year, month);
    Date(year, month, if today.day < last then today.day else last)
  }

  /** Six months back, in the same year or the year before. */
  lemma CutoffMonth(today: Date)
    requires Valid(today)
    ensures var c := SixMonthCutoff(today);
            if today.month > 6 then c.year == today.year && c.month == today.month - 6
            else c.year == today.year - 1 && c.month == today.month + 6
  {}

  /** The days from one month to the month six months on, both in one year. */
  lemma HalfYear(year: int, month: int)
    requires 1 <= month <= 6
    ensures var days := DaysBeforeMonth(year, month + 6) - DaysBeforeMonth(year, month);
            days == match month
                    case 1 => if Leap(year) then 182 else 181
                    case 2 => if Leap(year) then 182 else 181
                    case 3 => 184
                    case 4 => 183
                    case 5 => 184
                    case _ => 183
  {
    YearTable(year);
  }

  lemma YearTable(year: int)
    ensures var f := if Leap(year) then 1 else 0;
            && DaysBeforeMonth(year, 1) == 0 && DaysBeforeMonth(year, 2) == 31
            && DaysBeforeMonth(year, 3) == 59 + f && DaysBeforeMonth(year, 4) == 90 + f
            && DaysBeforeMonth(year, 5) == 120 + f && DaysBeforeMonth(year, 6) == 151 + f
            && DaysBeforeMonth(year, 7) == 181 + f && DaysBeforeMonth(year, 8) == 212 + f
            && DaysBeforeMonth(year, 9) == 243 + f && DaysBeforeMonth(year, 10) == 273 + f
            && DaysBeforeMonth(year, 11) == 304 + f && DaysBeforeMonth(year, 12) == 334 + f
  {
    hide Leap;
    var f := if Leap(year) then 1 else 0;
    assert DaysBeforeMonth(year, 2) == 31;
    assert DaysBeforeMonth(year, 3) == 59 + f;
    assert DaysBeforeMonth(year, 4) == 90 + f;
    assert DaysBeforeMonth(year, 5) == 120 + f;
    assert DaysBeforeMonth(year, 6) == 151 + f;
    assert DaysBeforeMonth(year, 7) == 181 + f;
    assert DaysBeforeMonth(year, 8) == 212 + f;
    assert DaysBeforeMonth(year, 9) == 243 + f;
    assert DaysBeforeMonth(year, 10) == 273 + f;
    assert DaysBeforeMonth(year, 11) == 304 + f;
    assert DaysBeforeMonth(year, 12) == 334 + f;
  }

  /** A year is 365 days, one more if it is a leap year. */
  lemma YearLength(year: int)
    ensures var y := year - 1;
            365 * year + year / 4 - year / 100 + year / 400
            == 365 * y + y / 4 - y / 100 + y / 400 + if Leap(year) then 366 else 365
  {
    StepBy4(year);
    StepBy100(year);
    StepBy400(year);
    Nested(year);
  }

  lemma StepBy4(n: int)
    ensures n / 4 == (n - 1) / 4 + if n % 4 == 0 then 1 else 0
  {}

  lemma StepBy100(n: int)
    ensures n / 100 == (n - 1) / 100 + if n % 100 == 0 then 1 else 0
  {}

  lemma StepBy400(n: int)
    ensures n / 400 == (n - 1) / 400 + if n % 400 == 0 then 1 else 0
  {}

  lemma Nested(n: int)
    ensures n % 400 == 0 ==> n % 100 == 0
    ensures n % 100 == 0 ==> n % 4 == 0
  {
    if n % 400 == 0 {
      assert n == 100 * (4 * (n / 400));
      Times100(4 * (n / 400));
    }
    if n % 100 == 0 {
      assert n == 4 * (25 * (n / 100));
      Times4(25 * (n / 100));
    }
  }

  lemma Times100(m: int)
    ensures 100 * m % 100 == 0
  {}

  lemma Times4(m: int)
    ensures 4 * m % 4 == 0
  {}

  /** From July of year 1 on the cutoff is a valid date, 181 to 184 days back. */
  lemma HalfAYearBack(today: Date)
    requires Valid(today) && (today.year > 1 || today.month >= 7)
    ensures var c := SixMonthCutoff(today);
            Valid(c) && 181 <= DayNumber(today) - DayNumber(c) <= 184
  {
    CutoffMonth(today);
    var c := SixMonthCutoff(today);
    hide SixMonthCutoff;
    if today.month > 6 {
      HalfYear(today.year, c.month);
    } else {
      AcrossNewYear(today, c);
    }
  }

  /** The cutoff of a date before July lies in the year before. */
  lemma AcrossNewYear(today: Date, c: Date)
    requires Valid(today) && today.month <= 6 && c == SixMonthCutoff(today)
    requires c.year == today.year - 1 && c.month == today.month + 6
    ensures 181 <= DayNumber(today) - DayNumber(c) <= 184
  {
    hide Leap;
    YearLength(c.year);
    YearTable(today.year);
    YearTable(c.year);
    hide DaysBeforeMonth;
  }

  /** Only before July of year 1 is there no such date. */
  lemma ValidExactly(today: Date)
    requires Valid(today)
    ensures Valid(SixMonthCutoff(today)) <==> today.year > 1 || today.month >= 7
  {
    CutoffMonth(today);
  }

  /** The cutoff never moves backwards as today moves on. */
  lemma CutoffIsMonotone(a: Date, b: Date)
    requires Valid(a) && Valid(b) && Before(a, b)
    ensures Before(SixMonthCutoff(a), SixMonthCutoff(b))
  {
    CutoffMonth(a);
    CutoffMonth(b);
  }

  /** The cutoff has today's day, or the last one of its month where that is earlier. */
  lemma SameDayOrLast(today: Date)
    requires Valid(today) && (today.year > 1 || today.month >= 7)
    ensures var c := SixMonthCutoff(today);
            c.day <= today.day && (c.day < today.day ==> !Valid(Date(c.year, c.month, c.day + 1)))
  {
    CutoffMonth(today);
  }
}
