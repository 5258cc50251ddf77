/** Expanding a recurrence rule into dates. */
module RecurrenceDates {
  import opened Base
  import opened Calendar
  import opened RecurrenceRules
  import opened RecurrenceCanonical
  import opened RecurrenceMatching

  const MAX_SPAN_DAYS := 36_600

  datatype SpanError = UntilBeforeAnchor | SpanTooLarge | OccurrenceBudgetExceeded | NoOccurrences | CountExceedsSpan

  // ---- Selecting numbers ----

  /** The numbers below `n` that are hit, in order. */
  ghost function Select(hit: nat -> bool, n: nat): seq<nat> {
    if n == 0 then []
    else if hit(n - 1) then Select(hit, n - 1) + [n - 1]
    else Select(hit, n - 1)
  }

  ghost predicate InOrder(numbers: seq<nat>) {
    forall i, j :: 0 <= i < j < |numbers| ==> numbers[i] < numbers[j]
  }

  lemma {:induction false} SelectInOrder(hit: nat -> bool, n: nat)
    ensures InOrder(Select(hit, n)) && forall i :: 0 <= i < |Select(hit, n)| ==> Select(hit, n)[i] < n
  {
    if n > 0 {
      SelectInOrder(hit, n - 1);
    }
  }

  lemma {:induction false} SelectPrefix(hit: nat -> bool, m: nat, n: nat)
    requires m <= n
    ensures Select(hit, m) <= Select(hit, n)
  {
    if m < n {
      SelectPrefix(hit, m, n - 1);
    }
  }

  lemma {:induction false} SelectExact(hit: nat -> bool, n: nat, k: nat)
    ensures k in Select(hit, n) <==> k < n && hit(k)
  {
    if n > 0 {
      SelectExact(hit, n - 1, k);
    }
  }

  // ---- Days from the anchor ----

  ghost function Day(anchor: CivilDate, n: nat): CivilDate {
    PlusDaysCounts(anchor, n);
    PlusDays(anchor, n)
  }

  lemma DayCounts(anchor: CivilDate, n: nat)
    ensures DayNumber(Day(anchor, n)) == DayNumber(anchor) + n
  {
    PlusDaysCounts(anchor, n);
  }

  lemma DayUnique(anchor: CivilDate, date: CivilDate)
    requires DayNumber(anchor) <= DayNumber(date)
    ensures date == Day(anchor, DayNumber(date) - DayNumber(anchor))
  {
    DayCounts(anchor, DayNumber(date) - DayNumber(anchor));
    DayNumberOrder(date, Day(anchor, DayNumber(date) - DayNumber(anchor)));
  }

  function MatchesOf(rule: Rule, anchor: CivilDate, weekStartsOn: DayOfWeek): CivilDate -> bool
    requires rule.interval > 0
  {
    (date: CivilDate) => Matches(rule, anchor, date, weekStartsOn)
  }

  ghost function DaysThat(matches: CivilDate -> bool, anchor: CivilDate): nat -> bool {
    (n: nat) => matches(Day(anchor, n))
  }

  /** Whether the rule holds on the day `n` days after the anchor. */
  ghost function HitsOf(rule: Rule, anchor: CivilDate, weekStartsOn: DayOfWeek): nat -> bool
    requires rule.interval > 0
  {
    DaysThat(MatchesOf(rule, anchor, weekStartsOn), anchor)
  }

  // ---- Bounds and the expansion ----

  /** `search_bounds`: the last day to look at; the number of occurrences to find is that of the rule. */
  function SearchBounds(rule: Rule, anchor: CivilDate): Result<CivilDate, SpanError>
    requires WellFormed(rule)
  {
    match rule.termination
    case Count(_) =>
      PlusDaysCounts(anchor, MAX_SPAN_DAYS - 1);
      Ok(PlusDays(anchor, MAX_SPAN_DAYS - 1))
    case Until(until) =>
      if DayNumber(until) < DayNumber(anchor) then Err(UntilBeforeAnchor)
      else if DayNumber(until) - DayNumber(anchor) + 1 > MAX_SPAN_DAYS then Err(SpanTooLarge)
      else Ok(until)
  }

  lemma BoundsSpan(rule: Rule, anchor: CivilDate)
    requires WellFormed(rule) && SearchBounds(rule, anchor).Ok?
    ensures 1 <= DayNumber(SearchBounds(rule, anchor).value) - DayNumber(anchor) + 1 <= MAX_SPAN_DAYS
  {
    if rule.termination.Count? {
      PlusDaysCounts(anchor, MAX_SPAN_DAYS - 1);
    }
  }

  ghost function Span(rule: Rule, anchor: CivilDate): nat
    requires WellFormed(rule) && SearchBounds(rule, anchor).Ok?
  {
    BoundsSpan(rule, anchor);
    DayNumber(SearchBounds(rule, anchor).value) - DayNumber(anchor) + 1
  }

  /** What a finished or aborted scan of the hits `all` means. */
  ghost function Outcome(termination: Termination, all: seq<nat>): Result<seq<nat>, SpanError> {
    match termination
    case Count(n) => if |all| >= n then Ok(all[..n]) else if all == [] then Err(NoOccurrences) else Err(CountExceedsSpan)
    case Until(_) =>
      if |all| > RecurrenceRules.MAX_OCCURRENCES then Err(OccurrenceBudgetExceeded)
      else if all == [] then Err(NoOccurrences)
      else Ok(all)
  }

  /** The days of the rule, counted from the anchor, or why there are none; no horizon takes part. */
  ghost function Expansion(rule: Rule, anchor: CivilDate, weekStartsOn: DayOfWeek): Result<seq<nat>, SpanError>
    requires WellFormed(rule)
  {
    if SearchBounds(rule, anchor).Err? then Err(SearchBounds(rule, anchor).error)
    else Outcome(rule.termination, Select(HitsOf(rule, anchor, weekStartsOn), Span(rule, anchor)))
  }

  /** The days up to the horizon, numbered by the position they have in the whole list. */
  ghost predicate Lists(list: seq<(nat, CivilDate)>, anchor: CivilDate, days: seq<nat>, horizon: int) {
    && |list| <= |days|
    && (forall i :: 0 <= i < |list| ==> list[i] == (i, Day(anchor, days[i])) && days[i] <= horizon)
    && (forall i :: |list| <= i < |days| ==> days[i] > horizon)
  }

  lemma ListsAppend(list: seq<(nat, CivilDate)>, anchor: CivilDate, days: seq<nat>, horizon: int, n: nat)
    requires Lists(list, anchor, days, horizon) && forall i :: 0 <= i < |days| ==> days[i] < n
    ensures Lists(if n <= horizon then list + [(|days|, Day(anchor, n))] else list, anchor, days + [n], horizon)
  {
    assert |list| == |days| || days[|list|] > horizon;
  }

  /** The result reports the outcome of scanning the hits `all`, up to the horizon. */
  ghost predicate Reported(r: Result<seq<(nat, CivilDate)>, SpanError>, anchor: CivilDate, outcome: Result<seq<nat>, SpanError>, horizon: int) {
    match r
    case Err(error) => outcome == Err(error)
    case Ok(list) => outcome.Ok? && Lists(list, anchor, outcome.value, horizon)
  }

  lemma BudgetExit(termination: Termination, hit: nat -> bool, n: nat, span: nat)
    requires n < span && hit(n) && |Select(hit, n)| == RecurrenceRules.MAX_OCCURRENCES && termination.Until?
    ensures Outcome(termination, Select(hit, span)) == Err(OccurrenceBudgetExceeded)
  {
    SelectPrefix(hit, n + 1, span);
  }

  lemma CountExit(count: nat, hit: nat -> bool, n: nat, span: nat)
    requires n <= span && |Select(hit, n)| == count
    ensures Outcome(Count(count), Select(hit, span)) == Ok(Select(hit, n))
  {
    SelectPrefix(hit, n, span);
    assert Select(hit, span)[..count] == Select(hit, n);
  }

  lemma LastExit(termination: Termination, all: seq<nat>)
    requires |all| <= RecurrenceRules.MAX_OCCURRENCES && (termination.Count? ==> |all| < termination.count)
    ensures Outcome(termination, all) == if all == [] then Err(NoOccurrences) else if termination.Count? then Err(CountExceedsSpan) else Ok(all)
  {
  }

  /** Tells which of the days from the anchor lie within the horizon. */
  ghost predicate Bounds(within: CivilDate -> bool, anchor: CivilDate, horizon: int) {
    forall n: nat {:trigger Day(anchor, n)} :: within(Day(anchor, n)) <==> n <= horizon
  }

  method Record(list: seq<(nat, CivilDate)>, count: nat, date: CivilDate, within: CivilDate -> bool,
                ghost anchor: CivilDate, ghost hit: nat -> bool, ghost n: nat, ghost horizon: int)
    returns (after: seq<(nat, CivilDate)>)
    requires hit(n) && date == Day(anchor, n) && count == |Select(hit, n)| && Bounds(within, anchor, horizon)
    requires Lists(list, anchor, Select(hit, n), horizon)
    ensures Lists(after, anchor, Select(hit, n + 1), horizon) && |Select(hit, n + 1)| == count + 1
  {
    SelectInOrder(hit, n);
    ListsAppend(list, anchor, Select(hit, n), horizon, n);
    after := if within(date) then list + [(count, date)] else list;
  }

  lemma NextIsDay(anchor: CivilDate, n: nat)
    ensures NextDay(Day(anchor, n)) == Day(anchor, n + 1)
  {
  }

  lemma SameDay(anchor: CivilDate, m: nat, n: nat)
    requires Day(anchor, m) == Day(anchor, n)
    ensures m == n
  {
    DayCounts(anchor, m);
    DayCounts(anchor, n);
  }

  /** The day-by-day scan to the day `last` days after the anchor, for any way of matching dates. */
  method Scan(matches: CivilDate -> bool, within: CivilDate -> bool, anchor: CivilDate, finalDate: CivilDate, termination: Termination,
              ghost last: nat, ghost horizon: int)
    returns (r: Result<seq<(nat, CivilDate)>, SpanError>)
    requires finalDate == Day(anchor, last) && Bounds(within, anchor, horizon)
    requires termination.Count? ==> 1 <= termination.count <= RecurrenceRules.MAX_OCCURRENCES
    ensures Reported(r, anchor, Outcome(termination, Select(DaysThat(matches, anchor), last + 1)), horizon)
  {
    ghost var hit := DaysThat(matches, anchor);
    ghost var n := 0;
    var list: seq<(nat, CivilDate)> := [];
    var count := 0;
    var date := anchor;
    while true
      invariant n <= last && date == Day(anchor, n)
      invariant count == |Select(hit, n)| && Lists(list, anchor, Select(hit, n), horizon)
      invariant count <= RecurrenceRules.MAX_OCCURRENCES && (termination.Count? ==> count < termination.count)
      decreases last - n
    {
      if matches(date) {
        if count == RecurrenceRules.MAX_OCCURRENCES {
          BudgetExit(termination, hit, n, last + 1);
          return Err(OccurrenceBudgetExceeded);
        }
        list := Record(list, count, date, within, anchor, hit, n, horizon);
        count := count + 1;
        if termination == Count(count) {
          CountExit(count, hit, n + 1, last + 1);
          return Ok(list);
        }
      }
      if date == finalDate {
        SameDay(anchor, n, last);
        break;
      }
      NextIsDay(anchor, n);
      date := NextDay(date);
      n := n + 1;
    }
    LastExit(termination, Select(hit, last + 1));
    r := if count == 0 then Err(NoOccurrences) else if termination.Count? then Err(CountExceedsSpan) else Ok(list);
  }

  function Through(through: CivilDate): CivilDate -> bool {
    (date: CivilDate) => DayNumber(date) <= DayNumber(through)
  }

  lemma ThroughBounds(through: CivilDate, anchor: CivilDate)
    ensures Bounds(Through(through), anchor, DayNumber(through) - DayNumber(anchor))
  {
    forall n: nat ensures Through(through)(Day(anchor, n)) <==> n <= DayNumber(through) - DayNumber(anchor) {
      DayCounts(anchor, n);
    }
  }

  /** `occurrence_dates_through` */
  method OccurrenceDatesThrough(rule: Rule, anchor: CivilDate, through: CivilDate, weekStartsOn: DayOfWeek)
    returns (r: Result<seq<(nat, CivilDate)>, SpanError>)
    requires WellFormed(rule)
    ensures Reported(r, anchor, Expansion(rule, anchor, weekStartsOn), DayNumber(through) - DayNumber(anchor))
  {
    var bounds := SearchBounds(rule, anchor);
    if bounds.Err? {
      return Err(bounds.error);
    }
    BoundsSpan(rule, anchor);
    DayUnique(anchor, bounds.value);
    ThroughBounds(through, anchor);
    r := Scan(MatchesOf(rule, anchor, weekStartsOn), Through(through), anchor, bounds.value, rule.termination,
              Span(rule, anchor) - 1, DayNumber(through) - DayNumber(anchor));
  }

  // ---- What the expansion holds ----

  /** `date` is one of the listed days. */
  ghost predicate Listed(anchor: CivilDate, days: seq<nat>, date: CivilDate) {
    DayNumber(anchor) <= DayNumber(date) && DayNumber(date) - DayNumber(anchor) in days
  }

  lemma HitIffMatches(rule: Rule, anchor: CivilDate, weekStartsOn: DayOfWeek, date: CivilDate)
    requires rule.interval > 0 && DayNumber(anchor) <= DayNumber(date)
    ensures HitsOf(rule, anchor, weekStartsOn)(DayNumber(date) - DayNumber(anchor)) <==> Matches(rule, anchor, date, weekStartsOn)
  {
    DayUnique(anchor, date);
  }

  lemma DayMatches(rule: Rule, anchor: CivilDate, weekStartsOn: DayOfWeek, date: CivilDate) returns (matches: bool)
    requires rule.interval > 0
    ensures matches == Matches(rule, anchor, date, weekStartsOn)
    ensures var day := DayNumber(date) - DayNumber(anchor); if day < 0 then !matches else HitsOf(rule, anchor, weekStartsOn)(day) == matches
  {
    matches := Matches(rule, anchor, date, weekStartsOn);
    if DayNumber(anchor) <= DayNumber(date) {
      HitIffMatches(rule, anchor, weekStartsOn, date);
    }
  }

  lemma PrefixExact(all: seq<nat>, n: nat, k: nat)
    requires InOrder(all) && 0 < n <= |all|
    ensures k in all[..n] <==> k in all && k <= all[n - 1]
  {
    if k in all && k <= all[n - 1] {
      var i :| 0 <= i < |all| && all[i] == k;
      assert i < n;
      assert all[..n][i] == k;
    }
  }

  lemma OutcomeExact(termination: Termination, hit: nat -> bool, span: nat, k: nat)
    requires Outcome(termination, Select(hit, span)).Ok? && (termination.Count? ==> termination.count > 0)
    ensures var days := Outcome(termination, Select(hit, span)).value;
      && days != [] && InOrder(days) && days[|days| - 1] < span
      && (k in days <==> hit(k) && k <= days[|days| - 1])
      && (termination.Count? ==> |days| == termination.count)
      && (termination.Until? ==> (k in days <==> hit(k) && k < span))
  {
    var all := Select(hit, span);
    var days := Outcome(termination, all).value;
    SelectInOrder(hit, span);
    SelectExact(hit, span, k);
    PrefixExact(all, |days|, k);
    assert all[..|all|] == all;
  }

  /** The same for a day before or after the anchor that does or does not match. */
  lemma DayExact(termination: Termination, hit: nat -> bool, span: nat, day: int, matches: bool)
    requires Outcome(termination, Select(hit, span)).Ok? && (termination.Count? ==> termination.count > 0)
    requires if day < 0 then !matches else hit(day) == matches
    ensures var days := Outcome(termination, Select(hit, span)).value;
      && days != [] && InOrder(days)
      && (day >= 0 && day in days <==> matches && day <= days[|days| - 1])
      && (termination.Count? ==> |days| == termination.count)
      && (termination.Until? ==> (day >= 0 && day in days <==> matches && day < span))
  {
    OutcomeExact(termination, hit, span, if day < 0 then 0 else day);
  }

  lemma ExpansionDay(rule: Rule, anchor: CivilDate, weekStartsOn: DayOfWeek, day: int, matches: bool)
    requires WellFormed(rule) && Expansion(rule, anchor, weekStartsOn).Ok?
    requires if day < 0 then !matches else HitsOf(rule, anchor, weekStartsOn)(day) == matches
    ensures var days := Expansion(rule, anchor, weekStartsOn).value;
      && days != [] && InOrder(days)
      && (day >= 0 && day in days <==> matches && day <= days[|days| - 1])
      && (rule.termination.Count? ==> |days| == rule.termination.count)
      && (rule.termination.Until? ==> (day >= 0 && day in days <==> matches && day <= DayNumber(rule.termination.date) - DayNumber(anchor)))
  {
    DayExact(rule.termination, HitsOf(rule, anchor, weekStartsOn), Span(rule, anchor), day, matches);
  }

  /** The list is strictly increasing and holds exactly the dates on which the rule occurs, up to its last one; a
      COUNT rule has exactly that many dates, and an UNTIL rule leaves out no date before its end. */
  lemma ExpansionExact(rule: Rule, anchor: CivilDate, weekStartsOn: DayOfWeek, date: CivilDate)
    requires WellFormed(rule) && Expansion(rule, anchor, weekStartsOn).Ok?
    ensures var days := Expansion(rule, anchor, weekStartsOn).value;
      && days != [] && InOrder(days)
      && (Listed(anchor, days, date) <==>
            Occurs(rule, anchor, date, weekStartsOn) && DayNumber(date) <= DayNumber(anchor) + days[|days| - 1])
      && (rule.termination.Count? ==> |days| == rule.termination.count)
      && (rule.termination.Until? ==>
            (Listed(anchor, days, date) <==> Occurs(rule, anchor, date, weekStartsOn) && DayNumber(date) <= DayNumber(rule.termination.date)))
  {
    MatchesIffOccurs(rule, anchor, date, weekStartsOn);
    var matches := DayMatches(rule, anchor, weekStartsOn, date);
    ExpansionDay(rule, anchor, weekStartsOn, DayNumber(date) - DayNumber(anchor), matches);
  }

  /** The days on which the rule occurs, among the first `span` from the anchor on. */
  ghost function OccurrenceDays(rule: Rule, anchor: CivilDate, weekStartsOn: DayOfWeek, span: nat): set<nat> {
    set n: nat | n < span && Occurs(rule, anchor, Day(anchor, n), weekStartsOn)
  }

  lemma {:induction false} SelectCounts(hit: nat -> bool, n: nat)
    ensures |Select(hit, n)| == |set k: nat | k < n && hit(k)|
  {
    if n == 0 {
      assert (set k: nat | k < 0 && hit(k)) == {};
    } else {
      SelectCounts(hit, n - 1);
      var before := set k: nat | k < n - 1 && hit(k);
      assert (set k: nat | k < n && hit(k)) == if hit(n - 1) then before + {n - 1} else before;
    }
  }

  lemma OccurrenceDaysCount(rule: Rule, anchor: CivilDate, weekStartsOn: DayOfWeek, span: nat)
    requires WellFormed(rule)
    ensures |Select(HitsOf(rule, anchor, weekStartsOn), span)| == |OccurrenceDays(rule, anchor, weekStartsOn, span)|
  {
    var hit := HitsOf(rule, anchor, weekStartsOn);
    SelectCounts(hit, span);
    forall n: nat ensures hit(n) <==> Occurs(rule, anchor, Day(anchor, n), weekStartsOn) {
      MatchesIffOccurs(rule, anchor, Day(anchor, n), weekStartsOn);
    }
    assert (set n: nat | n < span && hit(n)) == OccurrenceDays(rule, anchor, weekStartsOn, span);
  }

  lemma CountSpan(rule: Rule, anchor: CivilDate)
    requires WellFormed(rule) && rule.termination.Count?
    ensures SearchBounds(rule, anchor).Ok? && Span(rule, anchor) == MAX_SPAN_DAYS
  {
    PlusDaysCounts(anchor, MAX_SPAN_DAYS - 1);
  }

  lemma UntilSpan(rule: Rule, anchor: CivilDate)
    requires WellFormed(rule) && rule.termination.Until?
    ensures var last := DayNumber(rule.termination.date) - DayNumber(anchor); var bounds := SearchBounds(rule, anchor);
      && (bounds.Ok? <==> 0 <= last < MAX_SPAN_DAYS)
      && (bounds.Ok? ==> Span(rule, anchor) == last + 1)
      && (bounds.Err? ==> bounds.error == if last < 0 then UntilBeforeAnchor else SpanTooLarge)
  {
  }

  lemma OutcomeByCount(termination: Termination, all: seq<nat>)
    ensures Outcome(termination, all).Ok? <==>
      if termination.Count? then |all| >= termination.count else 0 < |all| <= RecurrenceRules.MAX_OCCURRENCES
    ensures Outcome(termination, all).Err? ==>
      Outcome(termination, all).error ==
        if |all| == 0 then NoOccurrences else if termination.Count? then CountExceedsSpan else OccurrenceBudgetExceeded
  {
  }

  /** Within accepted bounds, only the number of days on which the rule occurs decides. */
  lemma ExpansionByCount(rule: Rule, anchor: CivilDate, weekStartsOn: DayOfWeek, span: nat)
    requires WellFormed(rule) && SearchBounds(rule, anchor).Ok? && Span(rule, anchor) == span
    ensures var found := |OccurrenceDays(rule, anchor, weekStartsOn, span)|; var r := Expansion(rule, anchor, weekStartsOn);
      && (r.Ok? <==> if rule.termination.Count? then found >= rule.termination.count else 0 < found <= RecurrenceRules.MAX_OCCURRENCES)
      && (r.Err? ==> r.error == if found == 0 then NoOccurrences else if rule.termination.Count? then CountExceedsSpan else OccurrenceBudgetExceeded)
  {
    OccurrenceDaysCount(rule, anchor, weekStartsOn, span);
    OutcomeByCount(rule.termination, Select(HitsOf(rule, anchor, weekStartsOn), span));
  }

  /** A COUNT rule succeeds exactly when it occurs that often within 36,600 days of the anchor; the
      occurrence budget never stops it. */
  lemma CountNeverOverBudget(rule: Rule, anchor: CivilDate, weekStartsOn: DayOfWeek)
    requires WellFormed(rule) && rule.termination.Count?
    ensures var found := |OccurrenceDays(rule, anchor, weekStartsOn, 36_600)|; var r := Expansion(rule, anchor, weekStartsOn);
      && (r.Ok? <==> found >= rule.termination.count)
      && (r.Err? ==> r.error == if found == 0 then NoOccurrences else CountExceedsSpan)
  {
    CountSpan(rule, anchor);
    ExpansionByCount(rule, anchor, weekStartsOn, MAX_SPAN_DAYS);
  }

  /** An UNTIL rule fails exactly when its end comes before the anchor or 36,600 days on or later, when
      it never occurs until then, or when it occurs more than 10,000 times. */
  lemma UntilFailsIff(rule: Rule, anchor: CivilDate, weekStartsOn: DayOfWeek, last: int)
    requires WellFormed(rule) && rule.termination.Until? && last == DayNumber(rule.termination.date) - DayNumber(anchor)
    ensures var found := |OccurrenceDays(rule, anchor, weekStartsOn, if last < 0 then 0 else last + 1)|;
      var r := Expansion(rule, anchor, weekStartsOn);
      && (r.Ok? <==> 0 <= last < 36_600 && 0 < found <= 10_000)
      && (r.Err? ==> r.error == if last < 0 then UntilBeforeAnchor else if last >= 36_600 then SpanTooLarge
                                else if found == 0 then NoOccurrences else OccurrenceBudgetExceeded)
  {
    UntilSpan(rule, anchor);
    if 0 <= last < MAX_SPAN_DAYS {
      ExpansionByCount(rule, anchor, weekStartsOn, last + 1);
    }
  }

  /** Whether and why an expansion fails does not depend on the horizon, and a nearer horizon lists
      a prefix of what a farther one lists, with the same numbers. */
  lemma HorizonPrefix(rule: Rule, anchor: CivilDate, weekStartsOn: DayOfWeek, near: CivilDate, far: CivilDate,
                      a: Result<seq<(nat, CivilDate)>, SpanError>, b: Result<seq<(nat, CivilDate)>, SpanError>)
    requires WellFormed(rule) && DayNumber(near) <= DayNumber(far)
    requires Reported(a, anchor, Expansion(rule, anchor, weekStartsOn), DayNumber(near) - DayNumber(anchor))
    requires Reported(b, anchor, Expansion(rule, anchor, weekStartsOn), DayNumber(far) - DayNumber(anchor))
    ensures a.Ok? <==> b.Ok?
    ensures if a.Ok? then a.value <= b.value else a == b
  {
    if a.Ok? {
      ListsPrefix(a.value, b.value, anchor, Expansion(rule, anchor, weekStartsOn).value,
                  DayNumber(near) - DayNumber(anchor), DayNumber(far) - DayNumber(anchor));
    }
  }

  lemma ListsPrefix(a: seq<(nat, CivilDate)>, b: seq<(nat, CivilDate)>, anchor: CivilDate, days: seq<nat>, near: int, far: int)
    requires near <= far && Lists(a, anchor, days, near) && Lists(b, anchor, days, far)
    ensures a <= b
  {
    assert forall i :: 0 <= i < |a| ==> days[i] <= near;
    assert |b| == |days| || days[|b|] > far;
  }
}
