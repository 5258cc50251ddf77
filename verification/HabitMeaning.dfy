/** What an analytics report says about its input, stated without tallies, sweeps or eligibilities. */
module HabitReportMeaning {
  import opened Base
  import opened Calendar
  import opened Folds
  import opened Indexing
  import opened HabitRecords
  import opened HabitPauses
  import opened HabitTrends
  import opened HabitAnalytics
  import opened HabitProjection
  import opened HabitReports

  // ---- The terms of the report ----

  /** The window has closed, and the date is in the range and not in the future. */
  predicate FallsDue(input: Input, o: Occurrence) {
    && DayNumber(input.rangeStart) <= DayNumber(o.localDate) <= DayNumber(input.rangeEnd)
    && DayNumber(o.localDate) <= DayNumber(input.asOfLocalDate)
    && o.windowEnd <= input.asOf
  }

  /** Some pause and the window of the occurrence have an instant in common. */
  ghost predicate PauseTouches(input: Input, o: Occurrence) {
    PausedDuring(input.pauses, o.windowStart, o.windowEnd)
  }

  /** Due, and not taken out by a pause that preserves statistics. */
  ghost predicate Counts(input: Input, o: Occurrence) {
    FallsDue(input, o) && !(input.preserves && PauseTouches(input, o))
  }

  /** What a value adds to a measure, given whether it is due, paused, and whether pauses preserve
      statistics. Recorded seconds and quantities do not ask about pauses. */
  function WorthOf(v: Value, due: bool, paused: bool, preserves: bool, m: Measure): int {
    var counts := due && !(preserves && paused);
    match m
    case DueCount => if due then 1 else 0
    case PausedCount => if due && paused then 1 else 0
    case ProtectedCount => if due && paused && preserves then 1 else 0
    case EligibleCount => if counts then 1 else 0
    case CompletedCount => if counts && v.outcome.Completed? then 1 else 0
    case PartialCount => if counts && v.outcome.Partial? then 1 else 0
    case SkippedCount => if counts && v.outcome.Skipped? then 1 else 0
    case PendingCount => if counts && v.outcome.Pending? then 1 else 0
    case MissedSkipCount => if counts && v.outcome == Skipped(MissedPolicy) then 1 else 0
    case PartialProgressCount => if counts && 0 < v.progress < 10_000 then 1 else 0
    case ProgressSum => if counts then v.progress else 0
    case SecondsTotal => if due && v.actualSeconds.Some? then v.actualSeconds.value else 0
    case QuantityTotal(unit) => if due && v.quantity.Some? && v.quantity.value.unit == unit then v.quantity.value.amount else 0
  }

  /** What an occurrence adds to a measure. */
  ghost function Worth(input: Input, o: Occurrence, m: Measure): int {
    WorthOf(o.value, FallsDue(input, o), PauseTouches(input, o), input.preserves, m)
  }

  /** `Worth` on the dates of a period, and nothing elsewhere. */
  ghost function WorthIn(input: Input, period: CivilDate -> bool, m: Measure): Occurrence -> int {
    (o: Occurrence) => if period(o.localDate) then Worth(input, o, m) else 0
  }

  /** Every number of a tally is the sum of what the occurrences of the input add on these dates. */
  ghost predicate TallySays(input: Input, period: CivilDate -> bool, t: Tally) {
    forall m :: Measured(t, m) == SeqSum(input.occurrences, WorthIn(input, period, m))
  }

  // ---- Eligibility in these terms ----

  lemma DueIff(input: Input, o: Occurrence)
    ensures IsDue(input, o) <==> FallsDue(input, o)
  {
  }

  /** A paused occurrence is protected exactly when pauses preserve statistics. */
  lemma EligibilityMeans(input: Input, o: Occurrence)
    requires AllValid(input.pauses) && o.windowStart < o.windowEnd
    ensures var e := ObservationOf(input, o).eligibility;
      && (e.Eligible? <==> !PauseTouches(input, o))
      && (e.PausedProtected? <==> PauseTouches(input, o) && input.preserves)
  {
    PausedDuringIff(input.pauses, o.windowStart, o.windowEnd);
  }

  lemma ShareByEligibility(o: Observation, paused: bool, preserves: bool, m: Measure)
    requires (o.eligibility.Eligible? <==> !paused) && (o.eligibility.PausedProtected? <==> paused && preserves)
    ensures Share(o, m) == WorthOf(o.value, true, paused, preserves, m)
    ensures WorthOf(o.value, false, paused, preserves, m) == 0
  {
  }

  /** What a due occurrence contributes to a tally is what it is worth. */
  lemma ShareIsWorth(input: Input, i: nat, m: Measure)
    requires InputFailure(input).None? && i < |input.occurrences|
    ensures Worth(input, input.occurrences[i], m) ==
      if IsDue(input, input.occurrences[i]) then Share(ObservationOf(input, input.occurrences[i]), m) else 0
  {
    AcceptedOccurrence(input, i);
    EligibilityMeans(input, input.occurrences[i]);
    DueIff(input, input.occurrences[i]);
    ShareByEligibility(ObservationOf(input, input.occurrences[i]), PauseTouches(input, input.occurrences[i]), input.preserves, m);
  }

  // ---- Tallies in these terms ----

  ghost function Dated(period: CivilDate -> bool): Observation -> bool {
    (o: Observation) => period(o.date)
  }

  /** The due observations on the dates of a period. */
  ghost function DueOn(input: Input, period: CivilDate -> bool): seq<Observation> {
    Chosen(AllDue(input), Dated(period), Itself())
  }

  lemma TallyMeans(input: Input, period: CivilDate -> bool)
    requires InputFailure(input).None?
    ensures TallySays(input, period, TallyOf(DueOn(input, period)))
  {
    forall m ensures Measured(TallyOf(DueOn(input, period)), m) == SeqSum(input.occurrences, WorthIn(input, period, m)) {
      MeasureMeans(input, period, m);
    }
  }

  lemma MeasureMeans(input: Input, period: CivilDate -> bool, m: Measure)
    requires InputFailure(input).None?
    ensures Measured(TallyOf(DueOn(input, period)), m) == SeqSum(input.occurrences, WorthIn(input, period, m))
  {
    var all := input.occurrences;
    assert all[..|all|] == all;
    TallyMeasures(DueOn(input, period), m);
    var dated := IfKept(Dated(period), Itself(), ShareIn(m));
    ChosenSum(AllDue(input), Dated(period), Itself(), ShareIn(m));
    ChosenSum(all, Due(input), Seen(input), dated);
    forall i | 0 <= i < |all| ensures IfKept(Due(input), Seen(input), dated)(all[i]) == WorthIn(input, period, m)(all[i]) {
      ShareIsWorth(input, i, m);
    }
    SeqSumSame(all, IfKept(Due(input), Seen(input), dated), WorthIn(input, period, m));
  }

  // ---- The periods of a report ----

  ghost function EveryDate(): CivilDate -> bool {
    d => true
  }

  /** The dates of the day, the seven days or the month that `start` begins. */
  ghost function PeriodFrom(start: Date, granularity: Granularity): CivilDate -> bool
    requires start.Valid()
  {
    match granularity
    case Day => (d: CivilDate) => d == start
    case Week => (d: CivilDate) => DayNumber(start) <= DayNumber(d) <= DayNumber(start) + 6
    case Month => (d: CivilDate) => d.year == start.year && d.month == start.month
  }

  predicate Begins(start: Date, granularity: Granularity, weekStartsOn: DayOfWeek) {
    start.Valid() && match granularity
      case Day => true
      case Week => Weekday(start) == weekStartsOn
      case Month => start.day == 1
  }

  lemma AlignedBegins(start: Date, granularity: Granularity, weekStartsOn: DayOfWeek)
    ensures Aligned(start, granularity, weekStartsOn) <==> Begins(start, granularity, weekStartsOn)
  {
  }

  lemma PeriodIff(date: CivilDate, start: Date, granularity: Granularity, weekStartsOn: DayOfWeek)
    requires Aligned(start, granularity, weekStartsOn)
    ensures BucketStart(date, granularity, weekStartsOn) == start <==> PeriodFrom(start, granularity)(date)
  {
    if granularity.Week? {
      NextBucketAligned(start, Week, weekStartsOn);
      PlusDaysCounts(start, 7);
      WeekContains(date, weekStartsOn);
      if PeriodFrom(start, granularity)(date) {
        WeekUnique(date, start, weekStartsOn);
      }
    }
  }

  lemma AllIsDueOn(input: Input)
    ensures DueOn(input, EveryDate()) == AllDue(input)
  {
    ChosenAll(AllDue(input), Dated(EveryDate()));
  }

  lemma {:induction false} ChosenAll(s: seq<Observation>, keep: Observation -> bool)
    requires forall i :: 0 <= i < |s| ==> keep(s[i])
    ensures Chosen(s, keep, Itself()) == s
  {
    if s != [] {
      ChosenAll(s[..|s| - 1], keep);
      assert s == s[..|s| - 1] + [s[|s| - 1]];
    }
  }

  lemma {:induction false} BucketIsDueOn(s: seq<Observation>, start: Date, granularity: Granularity, weekStartsOn: DayOfWeek)
    requires Aligned(start, granularity, weekStartsOn)
    ensures InBucketOf(s, start, granularity, weekStartsOn) == Chosen(s, Dated(PeriodFrom(start, granularity)), Itself())
  {
    if s != [] {
      BucketIsDueOn(s[..|s| - 1], start, granularity, weekStartsOn);
      PeriodIff(s[|s| - 1].date, start, granularity, weekStartsOn);
    }
  }

  // ---- The report ----

  ghost predicate BucketSays(input: Input, b: Bucket) {
    && Begins(b.start, input.granularity, input.weekStartsOn)
    && TallySays(input, PeriodFrom(b.start, input.granularity), b.tally)
  }

  /** Every number of the report, in total and per bucket, is a count or a sum over the occurrences
      of the input that are due in its period. Preserving pauses take an occurrence they touch out of
      everything but `due`, `paused`, `protectedPaused` and the recorded seconds and quantities. */
  lemma ReportMeaning(input: Input, a: Analytics)
    requires InputFailure(input).None? && Reports(input, a)
    ensures TallySays(input, EveryDate(), a.totals)
    ensures forall i :: 0 <= i < |a.buckets| ==> BucketSays(input, a.buckets[i])
  {
    AllIsDueOn(input);
    TallyMeans(input, EveryDate());
    forall i | 0 <= i < |a.buckets| ensures BucketSays(input, a.buckets[i]) {
      var start := a.buckets[i].start;
      assert Starts(a.buckets)[i] == start;
      AlignedBegins(start, input.granularity, input.weekStartsOn);
      BucketIsDueOn(AllDue(input), start, input.granularity, input.weekStartsOn);
      TallyMeans(input, PeriodFrom(start, input.granularity));
    }
  }

  // ---- Pauses in the report ----

  ghost function DueOnes(input: Input): Occurrence -> bool {
    o => FallsDue(input, o)
  }

  ghost function TouchedOnes(input: Input): Occurrence -> bool {
    o => FallsDue(input, o) && PauseTouches(input, o)
  }

  ghost function UntouchedOnes(input: Input): Occurrence -> bool {
    o => FallsDue(input, o) && !PauseTouches(input, o)
  }

  lemma MeasureCounts(input: Input, t: Tally, m: Measure, p: Occurrence -> bool)
    requires TallySays(input, EveryDate(), t)
    requires forall o {:trigger Worth(input, o, m)} :: Worth(input, o, m) == if p(o) then 1 else 0
    ensures Measured(t, m) == CountOf(input.occurrences, p)
  {
    SumCountsPositions(input.occurrences, p);
    SeqSumSame(input.occurrences, WorthIn(input, EveryDate(), m), Indicator(p));
  }

  lemma DueAndPausedCounts(input: Input, t: Tally)
    requires TallySays(input, EveryDate(), t)
    ensures t.counts.due == CountOf(input.occurrences, DueOnes(input))
    ensures t.counts.paused == CountOf(input.occurrences, TouchedOnes(input))
  {
    MeasureCounts(input, t, DueCount, DueOnes(input));
    MeasureCounts(input, t, PausedCount, TouchedOnes(input));
  }

  lemma PreservedCounts(input: Input, t: Tally)
    requires TallySays(input, EveryDate(), t) && input.preserves
    ensures t.counts.protectedPaused == CountOf(input.occurrences, TouchedOnes(input))
    ensures t.counts.eligible == CountOf(input.occurrences, UntouchedOnes(input))
  {
    MeasureCounts(input, t, ProtectedCount, TouchedOnes(input));
    MeasureCounts(input, t, EligibleCount, UntouchedOnes(input));
  }

  lemma UnpreservedCounts(input: Input, t: Tally)
    requires TallySays(input, EveryDate(), t) && !input.preserves
    ensures t.counts.eligible == CountOf(input.occurrences, DueOnes(input))
  {
    MeasureCounts(input, t, EligibleCount, DueOnes(input));
  }

  /** With preserved statistics the due occurrences that a pause touches are protected and the others
      are eligible; otherwise none is protected and all due ones are eligible. */
  lemma PausesInReport(input: Input, a: Analytics)
    requires InputFailure(input).None? && Reports(input, a)
    ensures a.totals.counts.due == CountOf(input.occurrences, DueOnes(input))
    ensures a.totals.counts.paused == CountOf(input.occurrences, TouchedOnes(input))
    ensures a.totals.counts.protectedPaused == if input.preserves then CountOf(input.occurrences, TouchedOnes(input)) else 0
    ensures a.totals.counts.eligible == CountOf(input.occurrences, if input.preserves then UntouchedOnes(input) else DueOnes(input))
  {
    assert TallySays(input, EveryDate(), a.totals) by {
      ReportMeaning(input, a);
    }
    DueAndPausedCounts(input, a.totals);
    if input.preserves {
      PreservedCounts(input, a.totals);
    } else {
      UnpreservedCounts(input, a.totals);
      ReportBalances(input, a);
    }
  }

  // ---- Streaks ----

  ghost predicate CountsAt(input: Input, i: int, d: CivilDate) {
    0 <= i < |input.occurrences| && Counts(input, input.occurrences[i]) && input.occurrences[i].localDate == d
  }

  /** Some occurrence counts on the date. */
  ghost predicate StreakDay(input: Input, d: CivilDate) {
    exists i :: CountsAt(input, i, d)
  }

  /** Every occurrence that counts on the date was completed. */
  ghost predicate Kept(input: Input, d: CivilDate) {
    forall i :: CountsAt(input, i, d) ==> input.occurrences[i].value.outcome.Completed?
  }

  lemma DueSeen(input: Input, i: int, d: CivilDate)
    requires InputFailure(input).None? && CountsAt(input, i, d)
    ensures exists k :: 0 <= k < |AllDue(input)| && CountsOn(AllDue(input)[k], d) && AllDue(input)[k].value == input.occurrences[i].value
  {
    var all := input.occurrences;
    assert all[..|all|] == all;
    AcceptedOccurrence(input, i);
    EligibilityMeans(input, all[i]);
    DueIff(input, all[i]);
    ChosenMember(all, Due(input), Seen(input), i);
    var k :| 0 <= k < |AllDue(input)| && AllDue(input)[k] == ObservationOf(input, all[i]);
    assert CountsOn(AllDue(input)[k], d);
  }

  lemma SeenDue(input: Input, k: int, d: CivilDate)
    requires InputFailure(input).None? && 0 <= k < |AllDue(input)| && CountsOn(AllDue(input)[k], d)
    ensures exists i :: CountsAt(input, i, d) && AllDue(input)[k].value == input.occurrences[i].value
  {
    var all := input.occurrences;
    assert all[..|all|] == all;
    var i := ChosenOrigin(all, Due(input), Seen(input), k);
    AcceptedOccurrence(input, i);
    EligibilityMeans(input, all[i]);
    DueIff(input, all[i]);
    assert CountsAt(input, i, d);
  }

  lemma StreakDayIff(input: Input, d: CivilDate)
    requires InputFailure(input).None?
    ensures d in StreakMap(AllDue(input)) <==> StreakDay(input, d)
  {
    var due := AllDue(input);
    StreakMapMeaning(due, d);
    if d in StreakMap(due) {
      var k :| 0 <= k < |due| && CountsOn(due[k], d);
      SeenDue(input, k, d);
    }
    if StreakDay(input, d) {
      var i :| CountsAt(input, i, d);
      DueSeen(input, i, d);
    }
  }

  lemma KeptIff(input: Input, d: CivilDate)
    requires InputFailure(input).None? && d in StreakMap(AllDue(input))
    ensures StreakMap(AllDue(input))[d] <==> Kept(input, d)
  {
    var due := AllDue(input);
    StreakMapMeaning(due, d);
    if !Kept(input, d) {
      var i :| CountsAt(input, i, d) && !input.occurrences[i].value.outcome.Completed?;
      DueSeen(input, i, d);
    }
    if !StreakMap(due)[d] {
      var k :| 0 <= k < |due| && CountsOn(due[k], d) && !due[k].value.outcome.Completed?;
      SeenDue(input, k, d);
    }
  }

  ghost predicate StreakDays(input: Input, dates: seq<CivilDate>) {
    InDateOrder(dates) && forall d: CivilDate :: d in dates <==> StreakDay(input, d)
  }

  ghost function KeptFlags(input: Input, dates: seq<CivilDate>): seq<bool> {
    seq(|dates|, i requires 0 <= i < |dates| => Kept(input, dates[i]))
  }

  lemma FlagsAreKept(input: Input, dates: seq<CivilDate>)
    requires InputFailure(input).None? && Elements(dates) == StreakMap(AllDue(input)).Keys
    ensures Flags(StreakMap(AllDue(input)), dates) == KeptFlags(input, dates)
  {
    forall i | 0 <= i < |dates| ensures Flags(StreakMap(AllDue(input)), dates)[i] == KeptFlags(input, dates)[i] {
      assert dates[i] in Elements(dates);
      KeptIff(input, dates[i]);
    }
  }

  /** The streaks are those of the dates on which something counts, in date order. */
  lemma StreaksMean(input: Input, a: Analytics) returns (dates: seq<CivilDate>)
    requires InputFailure(input).None? && Reports(input, a)
    ensures StreakDays(input, dates) && StreakLengths(KeptFlags(input, dates), a.currentStreak, a.longestStreak)
  {
    var m := StreakMap(AllDue(input));
    dates :| InDateOrder(dates) && Elements(dates) == m.Keys && StreakLengths(Flags(m, dates), a.currentStreak, a.longestStreak);
    forall d: CivilDate ensures d in dates <==> StreakDay(input, d) {
      StreakDayIff(input, d);
      assert d in dates <==> d in Elements(dates);
    }
    FlagsAreKept(input, dates);
  }
}
