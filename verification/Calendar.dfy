/** The proleptic Gregorian calendar: civil dates, their Julian day numbers and weekdays. */
module Calendar {

  datatype DayOfWeek = Monday | Tuesday | Wednesday | Thursday | Friday | Saturday | Sunday

  function WeekdayIndex(d: DayOfWeek): nat {
    match d
    case Monday => 0
    case Tuesday => 1
    case Wednesday => 2
    case Thursday => 3
    case Friday => 4
    case Saturday => 5
    case Sunday => 6
  }

  predicate IsLeap(year: int) {
    year % 4 == 0 && (year % 100 != 0 || year % 400 == 0)
  }

  function MonthLength(year: int, month: int): int {
    if month == 2 then (if IsLeap(year) then 29 else 28)
    else if month == 4 || month == 6 || month == 9 || month == 11 then 30
    else 31
  }

  datatype Date = Date(year: int, month: int, day: int)
  {
    predicate Valid() {
      1 <= month <= 12 && 1 <= day <= MonthLength(year, month)
    }
  }

  type CivilDate = d: Date | d.Valid() witness Date(1, 1, 1)

  /** Days from 1 January of year 1 to 1 January of `year`. */
  function DaysBeforeYear(year: int): int {
    var y := year - 1;
    365 * y + y / 4 - y / 100 + y / 400
  }

  function DaysBeforeMonth(year: int, month: int): int
    requires 1 <= month <= 12
    decreases month
  {
    if month == 1 then 0 else DaysBeforeMonth(year, month - 1) + MonthLength(year, month - 1)
  }

  /** The Julian day number; day 0 is a Monday. */
  function DayNumber(d: Date): int
    requires d.Valid()
  {
    1_721_425 + DaysBeforeYear(d.year) + DaysBeforeMonth(d.year, d.month) + d.day
  }

  function Weekday(d: Date): (w: DayOfWeek)
    requires d.Valid()
    ensures WeekdayIndex(w) == DayNumber(d) % 7
  {
    var n := DayNumber(d) % 7;
    if n == 0 then Monday else if n == 1 then Tuesday else if n == 2 then Wednesday
    else if n == 3 then Thursday else if n == 4 then Friday else if n == 5 then Saturday else Sunday
  }

  // ---- Day numbers count days ----

  lemma FourYearStep(y: int)
    ensures y / 4 - (y - 1) / 4 == if y % 4 == 0 then 1 else 0
  {
  }

  lemma CenturyStep(y: int)
    ensures y / 100 - (y - 1) / 100 == if y % 100 == 0 then 1 else 0
  {
    var q, r := y / 100, y % 100;
    assert y - 1 == if r > 0 then 100 * q + (r - 1) else 100 * (q - 1) + 99;
  }

  lemma CenturyIsFourYears(y: int)
    ensures y % 100 == 0 ==> y % 4 == 0
  {
    assert y == 4 * (25 * (y / 100)) + y % 100;
  }

  lemma EraStep(y: int)
    ensures y / 400 - (y - 1) / 400 == if y % 400 == 0 then 1 else 0
  {
    var q, r := y / 400, y % 400;
    assert y - 1 == if r > 0 then 400 * q + (r - 1) else 400 * (q - 1) + 399;
  }

  lemma EraIsCentury(y: int)
    ensures y % 400 == 0 ==> y % 100 == 0
  {
    assert y == 100 * (4 * (y / 400)) + y % 400;
  }

  lemma YearLength(year: int)
    ensures DaysBeforeYear(year + 1) == DaysBeforeYear(year) + if IsLeap(year) then 366 else 365
  {
    FourYearStep(year);
    CenturyStep(year);
    CenturyIsFourYears(year);
    EraStep(year);
    EraIsCentury(year);
  }

  lemma {:induction false} MonthsFillYear(year: int, month: int)
    requires 1 <= month <= 12
    ensures 0 <= DaysBeforeMonth(year, month)
    ensures DaysBeforeMonth(year, month) + MonthLength(year, month) <= if IsLeap(year) then 366 else 365
    ensures month == 12 ==> DaysBeforeMonth(year, 12) + MonthLength(year, 12) == if IsLeap(year) then 366 else 365
  {
    var d2 := DaysBeforeMonth(year, 2);
    var d3 := DaysBeforeMonth(year, 3);
    var d4 := DaysBeforeMonth(year, 4);
    var d5 := DaysBeforeMonth(year, 5);
    var d6 := DaysBeforeMonth(year, 6);
    var d7 := DaysBeforeMonth(year, 7);
    var d8 := DaysBeforeMonth(year, 8);
    var d9 := DaysBeforeMonth(year, 9);
    var d10 := DaysBeforeMonth(year, 10);
    var d11 := DaysBeforeMonth(year, 11);
    var d12 := DaysBeforeMonth(year, 12);
  }

  function NextDay(d: Date): Date {
    if d.day < MonthLength(d.year, d.month) then d.(day := d.day + 1)
    else if d.month < 12 then Date(d.year, d.month + 1, 1)
    else Date(d.year + 1, 1, 1)
  }

  function PreviousDay(d: Date): Date {
    if d.day > 1 then d.(day := d.day - 1)
    else if d.month > 1 then Date(d.year, d.month - 1, MonthLength(d.year, d.month - 1))
    else Date(d.year - 1, 12, 31)
  }

  lemma NewYear(year: int)
    ensures DayNumber(Date(year + 1, 1, 1)) == DayNumber(Date(year, 12, 31)) + 1
  {
    YearLength(year);
    MonthsFillYear(year, 12);
  }

  lemma NewMonth(year: int, month: int)
    requires 1 <= month < 12
    ensures DayNumber(Date(year, month + 1, 1)) == DayNumber(Date(year, month, MonthLength(year, month))) + 1
  {
  }

  lemma NextDayCounts(d: Date)
    requires d.Valid()
    ensures NextDay(d).Valid() && DayNumber(NextDay(d)) == DayNumber(d) + 1
  {
    if d.day == MonthLength(d.year, d.month) {
      if d.month == 12 {
        NewYear(d.year);
      } else {
        NewMonth(d.year, d.month);
      }
    }
  }

  lemma PreviousDayCounts(d: Date)
    requires d.Valid()
    ensures PreviousDay(d).Valid() && DayNumber(PreviousDay(d)) == DayNumber(d) - 1
  {
    if d.day == 1 {
      if d.month == 1 {
        NewYear(d.year - 1);
      } else {
        NewMonth(d.year, d.month - 1);
      }
    }
  }

  lemma {:induction false} YearsOrdered(a: int, b: int)
    requires a <= b
    ensures DaysBeforeYear(a) <= DaysBeforeYear(b)
    decreases b - a
  {
    if a < b {
      YearsOrdered(a, b - 1);
      YearLength(b - 1);
    }
  }

  lemma {:induction false} MonthsOrdered(year: int, a: int, b: int)
    requires 1 <= a < b <= 12
    ensures DaysBeforeMonth(year, a) + MonthLength(year, a) <= DaysBeforeMonth(year, b)
    decreases b - a
  {
    if a < b - 1 {
      MonthsOrdered(year, a, b - 1);
    }
  }

  predicate Before(a: Date, b: Date) {
    a.year < b.year || (a.year == b.year && (a.month < b.month || (a.month == b.month && a.day < b.day)))
  }

  lemma BeforeCounts(a: Date, b: Date)
    requires a.Valid() && b.Valid() && Before(a, b)
    ensures DayNumber(a) < DayNumber(b)
  {
    if a.year < b.year {
      YearLength(a.year);
      YearsOrdered(a.year + 1, b.year);
      MonthsFillYear(a.year, a.month);
      MonthsFillYear(b.year, b.month);
    } else if a.month < b.month {
      MonthsOrdered(a.year, a.month, b.month);
    }
  }

  /** Civil order and day-number order are the same, so day numbers identify dates. */
  lemma DayNumberOrder(a: Date, b: Date)
    requires a.Valid() && b.Valid()
    ensures DayNumber(a) < DayNumber(b) <==> Before(a, b)
    ensures DayNumber(a) == DayNumber(b) <==> a == b
  {
    if Before(a, b) {
      BeforeCounts(a, b);
    } else if Before(b, a) {
      BeforeCounts(b, a);
    }
  }

  // ---- Adding days ----

  function PlusDays(d: Date, n: nat): Date {
    if n == 0 then d else NextDay(PlusDays(d, n - 1))
  }

  function MinusDays(d: Date, n: nat): Date {
    if n == 0 then d else PreviousDay(MinusDays(d, n - 1))
  }

  lemma {:induction false} PlusDaysCounts(d: Date, n: nat)
    requires d.Valid()
    ensures PlusDays(d, n).Valid() && DayNumber(PlusDays(d, n)) == DayNumber(d) + n
  {
    if n > 0 {
      PlusDaysCounts(d, n - 1);
      NextDayCounts(PlusDays(d, n - 1));
    }
  }

  lemma {:induction false} MinusDaysCounts(d: Date, n: nat)
    requires d.Valid()
    ensures MinusDays(d, n).Valid() && DayNumber(MinusDays(d, n)) == DayNumber(d) - n
  {
    if n > 0 {
      MinusDaysCounts(d, n - 1);
      PreviousDayCounts(MinusDays(d, n - 1));
    }
  }

  // ---- The calendar is the real one ----

  /** The first of January 2000 was a Saturday and has Julian day number 2,451,545. */
  lemma MillenniumDay()
    ensures DayNumber(Date(2000, 1, 1)) == 2_451_545 && Weekday(Date(2000, 1, 1)) == Saturday
  {
  }

  /** Weekdays follow one another in the order of the week. */
  lemma WeekdaysFollow(d: Date)
    requires d.Valid()
    ensures NextDay(d).Valid() && WeekdayIndex(Weekday(NextDay(d))) == (WeekdayIndex(Weekday(d)) + 1) % 7
  {
    NextDayCounts(d);
    NextModulo(DayNumber(d));
  }

  lemma NextModulo(n: int)
    ensures (n + 1) % 7 == (n % 7 + 1) % 7
  {
  }

  const WEEK := [Monday, Tuesday, Wednesday, Thursday, Friday, Saturday, Sunday]

  lemma WeekdayIndexed(w: DayOfWeek)
    ensures WeekdayIndex(w) < 7 && WEEK[WeekdayIndex(w)] == w
  {
  }

  const COMMON_YEAR := [31, 28, 31, 30, 31, 30, 31, 31, 30, 31, 30, 31]

  lemma MonthLengths(year: int, month: int)
    requires 1 <= month <= 12
    ensures MonthLength(year, month) == COMMON_YEAR[month - 1] + if month == 2 && IsLeap(year) then 1 else 0
  {
  }

  function FirstOfMonth(d: Date): Date {
    d.(day := 1)
  }

  function FirstOfNextMonth(d: Date): Date {
    if d.month == 12 then Date(d.year + 1, 1, 1) else Date(d.year, d.month + 1, 1)
  }

  /** A month runs from its first day to the day before the next month's first. */
  lemma MonthSpan(d: Date)
    requires d.Valid()
    ensures FirstOfMonth(d).Valid() && FirstOfNextMonth(d).Valid()
    ensures DayNumber(d) == DayNumber(FirstOfMonth(d)) + d.day - 1
    ensures DayNumber(FirstOfNextMonth(d)) == DayNumber(FirstOfMonth(d)) + MonthLength(d.year, d.month)
  {
    if d.month == 12 {
      NewYear(d.year);
    } else {
      NewMonth(d.year, d.month);
    }
  }
}
