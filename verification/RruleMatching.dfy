/** Which dates a recurrence rule matches: the arithmetic of the code, and what it means on the calendar. */
module RecurrenceMatching {
  import opened Base
  import opened Calendar
  import opened RecurrenceRules
  import opened RecurrenceCanonical

  // ---- Matching one date ----

  /** `week_key`: the day number of the first day of the week around `date`. */
  function WeekKey(date: CivilDate, weekStartsOn: DayOfWeek): int {
    DayNumber(date) - (7 + WeekdayIndex(Weekday(date)) - WeekdayIndex(weekStartsOn)) % 7
  }

  function MonthIndex(date: Date): int {
    date.year * 12 + date.month - 1
  }

  /** Integer division that rounds toward zero. */
  function TruncatedDiv(a: int, b: int): int
    requires b > 0
  {
    if a < 0 then -((-a) / b) else a / b
  }

  /** The number of whole units from the anchor, in the unit of the frequency. */
  function Elapsed(frequency: Frequency, anchor: CivilDate, date: CivilDate, weekStartsOn: DayOfWeek): int {
    match frequency
    case Daily => DayNumber(date) - DayNumber(anchor)
    case Weekly => TruncatedDiv(WeekKey(date, weekStartsOn) - WeekKey(anchor, weekStartsOn), 7)
    case Monthly => MonthIndex(date) - MonthIndex(anchor)
  }

  predicate WeekdayMatches(rule: Rule, anchor: CivilDate, date: CivilDate) {
    if rule.byDay == {} then !rule.frequency.Weekly? || Weekday(date) == Weekday(anchor)
    else Weekday(date) in rule.byDay
  }

  predicate MonthDayMatches(rule: Rule, anchor: CivilDate, date: CivilDate) {
    if rule.byMonthDay != {} then
      date.day in rule.byMonthDay || date.day - MonthLength(date.year, date.month) - 1 in rule.byMonthDay
    else !rule.frequency.Monthly? || rule.byDay != {} || date.day == anchor.day
  }

  /** `matches_date` */
  predicate Matches(rule: Rule, anchor: CivilDate, date: CivilDate, weekStartsOn: DayOfWeek)
    requires rule.interval > 0
  {
    && DayNumber(anchor) <= DayNumber(date)
    && Elapsed(rule.frequency, anchor, date, weekStartsOn) % rule.interval == 0
    && WeekdayMatches(rule, anchor, date)
    && MonthDayMatches(rule, anchor, date)
  }

  lemma WeekKeyAligned(n: int, start: int)
    requires 0 <= start < 7
    ensures var key := n - (7 + n % 7 - start) % 7; key % 7 == start && key <= n < key + 7
  {
  }

  lemma AlignedDifference(a: int, b: int, start: int)
    requires a % 7 == start && b % 7 == start
    ensures (b - a) % 7 == 0
  {
  }

  /** Week keys are a whole number of weeks apart, so dividing their distance by seven is exact, and
      the week of a later date does not come earlier. */
  lemma WeekDivisionExact(anchor: CivilDate, date: CivilDate, weekStartsOn: DayOfWeek)
    ensures 7 * Elapsed(Weekly, anchor, date, weekStartsOn) == WeekKey(date, weekStartsOn) - WeekKey(anchor, weekStartsOn)
    ensures DayNumber(anchor) <= DayNumber(date) ==> Elapsed(Weekly, anchor, date, weekStartsOn) >= 0
  {
    var start := WeekdayIndex(weekStartsOn);
    WeekKeyAligned(DayNumber(anchor), start);
    WeekKeyAligned(DayNumber(date), start);
    AlignedDifference(WeekKey(anchor, weekStartsOn), WeekKey(date, weekStartsOn), start);
    ExactDivision(WeekKey(date, weekStartsOn) - WeekKey(anchor, weekStartsOn));
  }

  lemma ExactDivision(d: int)
    requires d % 7 == 0
    ensures 7 * TruncatedDiv(d, 7) == d
  {
  }

  /** Two dates lie in the same week exactly when no week has elapsed between them. */
  lemma SameWeekIff(anchor: CivilDate, date: CivilDate, weekStartsOn: DayOfWeek)
    ensures Elapsed(Weekly, anchor, date, weekStartsOn) == 0 <==>
      WeekKey(anchor, weekStartsOn) <= DayNumber(date) < WeekKey(anchor, weekStartsOn) + 7
  {
    var start := WeekdayIndex(weekStartsOn);
    WeekKeyAligned(DayNumber(anchor), start);
    WeekKeyAligned(DayNumber(date), start);
    WeekDivisionExact(anchor, date, weekStartsOn);
  }

  /** A weekly rule keeps exactly the weeks that lie a whole number of intervals after the anchor's. */
  lemma EveryNthWeek(anchor: CivilDate, date: CivilDate, weekStartsOn: DayOfWeek, interval: nat)
    requires interval > 0
    ensures Elapsed(Weekly, anchor, date, weekStartsOn) % interval == 0 <==>
      exists k :: WeekKey(date, weekStartsOn) == WeekKey(anchor, weekStartsOn) + 7 * Times(interval, k)
  {
    var e := Elapsed(Weekly, anchor, date, weekStartsOn);
    WeekDivisionExact(anchor, date, weekStartsOn);
    MultipleIff(e, interval);
    assert forall k :: e == Times(interval, k) <==> WeekKey(date, weekStartsOn) == WeekKey(anchor, weekStartsOn) + 7 * Times(interval, k);
  }

  lemma MultipleIff(e: int, interval: nat)
    requires interval > 0
    ensures e % interval == 0 <==> exists k :: e == Times(interval, k)
  {
    if e % interval == 0 {
      assert e == Times(interval, e / interval);
    }
    forall k | e == Times(interval, k) ensures e % interval == 0 {
      MultipleModulo(interval, k);
    }
  }

  function Times(a: int, b: int): int {
    a * b
  }

  lemma {:induction false} MultipleModulo(a: nat, k: int)
    requires a > 0
    ensures Times(a, k) % a == 0
    decreases if k < 0 then -k else k
  {
    if k > 0 {
      MultipleModulo(a, k - 1);
      assert Times(a, k) == Times(a, k - 1) + a;
      AddModulo(Times(a, k - 1), a);
    } else if k < 0 {
      MultipleModulo(a, k + 1);
      assert Times(a, k + 1) == Times(a, k) + a;
      AddModulo(Times(a, k), a);
    }
  }

  lemma AddModulo(x: int, a: nat)
    requires a > 0
    ensures (x + a) % a == x % a
  {
    var q, r := x / a, x % a;
    var u, v := (x + a) / a, (x + a) % a;
    assert x == Times(q, a) + r && x + a == Times(u, a) + v;
    assert Times(u - q - 1, a) == Times(u, a) - Times(q, a) - a;
    if u - q - 1 != 0 {
      LargeMultiple(u - q - 1, a);
    }
  }

  lemma LargeMultiple(d: int, a: nat)
    requires d != 0
    ensures Times(d, a) >= a || Times(d, a) + a <= 0
  {
    if d > 0 {
      ProductGrows(1, d, a);
    } else {
      ProductGrows(1, -d, a);
      assert Times(d, a) == -((-d) * a);
    }
  }

  // ---- What a match means ----

  /** `date` lies in a week that begins `interval` weeks, or a multiple of that, after the anchor's. */
  ghost predicate InNthWeek(anchor: CivilDate, date: CivilDate, weekStartsOn: DayOfWeek, interval: nat) {
    exists first, k :: StartsWeekOf(first, anchor, weekStartsOn) && StartsWeekOf(first + 7 * Times(interval, k), date, weekStartsOn)
  }

  /** Day `first` falls on the first weekday and `date` is one of the seven days from it on. */
  predicate StartsWeekOf(first: int, date: CivilDate, weekStartsOn: DayOfWeek) {
    first % 7 == WeekdayIndex(weekStartsOn) && first <= DayNumber(date) < first + 7
  }

  ghost predicate InNthMonth(anchor: CivilDate, date: CivilDate, interval: nat) {
    exists k :: 12 * date.year + date.month == 12 * anchor.year + anchor.month + Times(interval, k)
  }

  ghost predicate OnNthDay(anchor: CivilDate, date: CivilDate, interval: nat) {
    exists k :: DayNumber(date) == DayNumber(anchor) + Times(interval, k)
  }

  /** A positive entry counts the days of the month from its first, a negative one from its end. */
  ghost predicate Selects(entry: int, date: CivilDate) {
    MonthSpan(date);
    if entry > 0 then DayNumber(date) == DayNumber(FirstOfMonth(date)) + entry - 1
    else entry < 0 && DayNumber(date) - entry == DayNumber(FirstOfNextMonth(date))
  }

  /** The rule occurs on the date: in a chosen period from the anchor on, on a chosen weekday and month
      day; where nothing is chosen, weekly rules keep the anchor's weekday and monthly rules its day. */
  ghost predicate Occurs(rule: Rule, anchor: CivilDate, date: CivilDate, weekStartsOn: DayOfWeek) {
    && DayNumber(anchor) <= DayNumber(date)
    && (match rule.frequency
        case Daily => OnNthDay(anchor, date, rule.interval)
        case Weekly => InNthWeek(anchor, date, weekStartsOn, rule.interval)
        case Monthly => InNthMonth(anchor, date, rule.interval))
    && (rule.byDay != {} ==> Weekday(date) in rule.byDay)
    && (rule.byMonthDay != {} ==> exists entry :: entry in rule.byMonthDay && Selects(entry, date))
    && (rule.byDay == {} && rule.frequency.Weekly? ==> Weekday(date) == Weekday(anchor))
    && (rule.byDay == {} && rule.byMonthDay == {} && rule.frequency.Monthly? ==> date.day == anchor.day)
  }

  lemma WeekKeyStarts(date: CivilDate, weekStartsOn: DayOfWeek)
    ensures StartsWeekOf(WeekKey(date, weekStartsOn), date, weekStartsOn)
  {
    WeekKeyAligned(DayNumber(date), WeekdayIndex(weekStartsOn));
  }

  lemma OneWeekStart(a: int, b: int, date: CivilDate, weekStartsOn: DayOfWeek)
    requires StartsWeekOf(a, date, weekStartsOn) && StartsWeekOf(b, date, weekStartsOn)
    ensures a == b
  {
    AlignedDifference(a, b, WeekdayIndex(weekStartsOn));
  }

  lemma NthWeekIff(anchor: CivilDate, date: CivilDate, weekStartsOn: DayOfWeek, interval: nat)
    requires interval > 0
    ensures Elapsed(Weekly, anchor, date, weekStartsOn) % interval == 0 <==> InNthWeek(anchor, date, weekStartsOn, interval)
  {
    var a, d := WeekKey(anchor, weekStartsOn), WeekKey(date, weekStartsOn);
    EveryNthWeek(anchor, date, weekStartsOn, interval);
    WeekKeyStarts(anchor, weekStartsOn);
    WeekKeyStarts(date, weekStartsOn);
    if exists k :: d == a + 7 * Times(interval, k) {
      var k :| d == a + 7 * Times(interval, k);
      assert StartsWeekOf(a, anchor, weekStartsOn) && StartsWeekOf(a + 7 * Times(interval, k), date, weekStartsOn);
    }
    if InNthWeek(anchor, date, weekStartsOn, interval) {
      var first, k :| StartsWeekOf(first, anchor, weekStartsOn) && StartsWeekOf(first + 7 * Times(interval, k), date, weekStartsOn);
      OneWeekStart(first, a, anchor, weekStartsOn);
      OneWeekStart(first + 7 * Times(interval, k), d, date, weekStartsOn);
      assert d == a + 7 * Times(interval, k);
    }
  }

  lemma PeriodIff(rule: Rule, anchor: CivilDate, date: CivilDate, weekStartsOn: DayOfWeek)
    requires rule.interval > 0
    ensures Elapsed(rule.frequency, anchor, date, weekStartsOn) % rule.interval == 0 <==>
      match rule.frequency
      case Daily => OnNthDay(anchor, date, rule.interval)
      case Weekly => InNthWeek(anchor, date, weekStartsOn, rule.interval)
      case Monthly => InNthMonth(anchor, date, rule.interval)
  {
    var e := Elapsed(rule.frequency, anchor, date, weekStartsOn);
    MultipleIff(e, rule.interval);
    match rule.frequency
    case Daily =>
      assert forall k :: e == Times(rule.interval, k) <==> DayNumber(date) == DayNumber(anchor) + Times(rule.interval, k);
    case Weekly => NthWeekIff(anchor, date, weekStartsOn, rule.interval);
    case Monthly =>
      assert forall k :: e == Times(rule.interval, k) <==>
        12 * date.year + date.month == 12 * anchor.year + anchor.month + Times(rule.interval, k);
  }

  lemma SelectsIff(entry: int, date: CivilDate)
    requires entry != 0
    ensures Selects(entry, date) <==> entry == date.day || entry == date.day - MonthLength(date.year, date.month) - 1
  {
    MonthSpan(date);
  }

  lemma MonthDayIff(days: set<int>, date: CivilDate)
    requires 0 !in days
    ensures date.day in days || date.day - MonthLength(date.year, date.month) - 1 in days <==> exists entry :: entry in days && Selects(entry, date)
  {
    forall entry | entry in days ensures Selects(entry, date) <==> entry == date.day || entry == date.day - MonthLength(date.year, date.month) - 1 {
      SelectsIff(entry, date);
    }
  }

  /** The arithmetic of the code and the calendar agree. */
  lemma MatchesIffOccurs(rule: Rule, anchor: CivilDate, date: CivilDate, weekStartsOn: DayOfWeek)
    requires WellFormed(rule)
    ensures Matches(rule, anchor, date, weekStartsOn) <==> Occurs(rule, anchor, date, weekStartsOn)
  {
    PeriodIff(rule, anchor, date, weekStartsOn);
    MonthDayIff(rule.byMonthDay, date);
  }
}
