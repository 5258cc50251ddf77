/** The analytics projection: validation, eligibility, one pass over the due occurrences, report. */
module HabitProjection {
  import opened Base
  import opened Calendar
  import opened HabitRecords
  import opened HabitPauses
  import opened HabitTrends
  import opened HabitAnalytics
  import opened Folds
  import opened Indexing

  datatype Input = Input(
    rangeStart: CivilDate,
    rangeEnd: CivilDate,
    asOf: Instant,
    asOfLocalDate: CivilDate,
    granularity: Granularity,
    weekStartsOn: DayOfWeek,
    preserves: bool,
    pauses: seq<Pause>,
    occurrences: seq<Occurrence>)

  datatype Failure =
    | InvalidRange
    | RangeTooLarge
    | TooManyOccurrences
    | TooManyPauses
    | MissingOccurrenceId
    | DuplicateOccurrence(id: Id)
    | BadOutcome(outcome: Error)
    | Policy(policy: PolicyError)
    | ArithmeticOverflow

  function OccurrenceId(o: Occurrence): Id {
    o.id
  }

  /** The complaint about an occurrence, given the occurrences before it. */
  ghost function OccurrenceFault(asOf: Instant): (seq<Occurrence>, Occurrence) -> Option<Failure> {
    (earlier, o: Occurrence) =>
      if o.id == NIL then Some(MissingOccurrenceId)
      else if Has(earlier, OccurrenceId, o.id) then Some(DuplicateOccurrence(o.id))
      else if o.windowStart >= o.windowEnd then Some(Policy(InvalidOccurrenceWindow))
      else if ValueError(o.value, asOf).Some? then Some(BadOutcome(ValueError(o.value, asOf).value))
      else None
  }

  /** The first complaint of `validate_analytics_input`. */
  ghost function InputFailure(input: Input): Option<Failure> {
    if DayNumber(input.rangeEnd) < DayNumber(input.rangeStart) then Some(InvalidRange)
    else if DayNumber(input.rangeEnd) - DayNumber(input.rangeStart) >= 36_600 then Some(RangeTooLarge)
    else if |input.occurrences| > 1_000_000 then Some(TooManyOccurrences)
    else if |input.pauses| > 100_000 then Some(TooManyPauses)
    else if !AllValid(input.pauses) then Some(Policy(InvalidPauseInterval))
    else FirstFault(input.occurrences, OccurrenceFault(input.asOf))
  }

  method ValidateOccurrences(occurrences: seq<Occurrence>, asOf: Instant) returns (r: Option<Failure>)
    ensures r == FirstFault(occurrences, OccurrenceFault(asOf))
  {
    var identities: set<Id> := {};
    for i := 0 to |occurrences|
      invariant FirstFault(occurrences[..i], OccurrenceFault(asOf)).None?
      invariant identities == Index(occurrences[..i], OccurrenceId).Keys
    {
      var o := occurrences[i];
      IndexNext(occurrences, i, OccurrenceId, OccurrenceFault(asOf));
      if o.id == NIL {
        return Some(MissingOccurrenceId);
      }
      if o.id in identities {
        return Some(DuplicateOccurrence(o.id));
      }
      identities := identities + {o.id};
      if o.windowStart >= o.windowEnd {
        return Some(Policy(InvalidOccurrenceWindow));
      }
      var fault := ValueError(o.value, asOf);
      if fault.Some? {
        return Some(BadOutcome(fault.value));
      }
    }
    assert occurrences[..|occurrences|] == occurrences;
    return None;
  }

  method ValidateInput(input: Input) returns (r: Option<Failure>)
    ensures r == InputFailure(input)
  {
    if DayNumber(input.rangeEnd) < DayNumber(input.rangeStart) {
      return Some(InvalidRange);
    }
    if DayNumber(input.rangeEnd) - DayNumber(input.rangeStart) + 1 > MAX_RANGE_DAYS {
      return Some(RangeTooLarge);
    }
    if |input.occurrences| > MAX_OCCURRENCES {
      return Some(TooManyOccurrences);
    }
    if |input.pauses| > MAX_PAUSES {
      return Some(TooManyPauses);
    }
    for i := 0 to |input.pauses|
      invariant forall j :: 0 <= j < i ==> input.pauses[j].Valid()
    {
      if !input.pauses[i].Valid() {
        return Some(Policy(InvalidPauseInterval));
      }
    }
    r := ValidateOccurrences(input.occurrences, input.asOf);
  }

  function EffectiveEnd(input: Input): CivilDate {
    if DayNumber(input.asOfLocalDate) < DayNumber(input.rangeEnd) then input.asOfLocalDate else input.rangeEnd
  }

  /** The window has closed and the local date lies in the effective range. */
  predicate IsDue(input: Input, o: Occurrence) {
    InRange(input, o.localDate) && o.windowEnd <= input.asOf
  }

  predicate InRange(input: Input, date: CivilDate) {
    DayNumber(input.rangeStart) <= DayNumber(date) <= DayNumber(EffectiveEnd(input))
  }

  /** A due occurrence with the eligibility of the naive check against every pause. */
  ghost function ObservationOf(input: Input, o: Occurrence): Observation {
    Observation(o.localDate, o.value,
                EligibilityOf(SomePauseOverlaps(input.pauses, o.windowStart, o.windowEnd), input.preserves))
  }

  ghost function Due(input: Input): Occurrence -> bool {
    o => IsDue(input, o)
  }

  ghost function Seen(input: Input): Occurrence -> Observation {
    o => ObservationOf(input, o)
  }

  /** The due ones among the first `n` occurrences, in input order. */
  ghost function DueTo(input: Input, n: nat): seq<Observation>
    requires n <= |input.occurrences|
  {
    Chosen(input.occurrences[..n], Due(input), Seen(input))
  }

  lemma DueNext(input: Input, n: nat)
    requires n < |input.occurrences|
    ensures DueTo(input, n + 1) ==
      if IsDue(input, input.occurrences[n]) then DueTo(input, n) + [ObservationOf(input, input.occurrences[n])] else DueTo(input, n)
  {
    assert input.occurrences[..n + 1] == input.occurrences[..n] + [input.occurrences[n]];
    ChosenAppend(input.occurrences[..n], input.occurrences[n], Due(input), Seen(input));
  }

  ghost function AllDue(input: Input): seq<Observation> {
    DueTo(input, |input.occurrences|)
  }

  lemma AcceptedOccurrence(input: Input, i: nat)
    requires i < |input.occurrences| && InputFailure(input).None?
    ensures GoodValue(input.occurrences[i].value) && input.occurrences[i].windowStart < input.occurrences[i].windowEnd
  {
    FaultlessAt(input.occurrences, i, OccurrenceFault(input.asOf));
    ValidatedIsGood(input.occurrences[i].value, input.asOf);
  }

  ghost predicate Sound(input: Input, o: Observation) {
    GoodValue(o.value) && InRange(input, o.date)
  }

  ghost predicate AllSound(input: Input, s: seq<Observation>) {
    forall i :: 0 <= i < |s| ==> Sound(input, s[i])
  }

  lemma DueFacts(input: Input, n: nat)
    requires n <= |input.occurrences| && InputFailure(input).None?
    ensures |DueTo(input, n)| <= n && AllSound(input, DueTo(input, n)) && AllGood(DueTo(input, n))
  {
    var first := input.occurrences[..n];
    forall i | 0 <= i < n && Due(input)(first[i]) ensures Sound(input, Seen(input)(first[i])) {
      AcceptedOccurrence(input, i);
    }
    ChosenHold(first, Due(input), Seen(input), o => Sound(input, o));
  }

  // ---- Eligibility of the due occurrences ----

  function Same(): Occurrence -> Occurrence {
    o => o
  }

  ghost function DueList(input: Input, n: nat): seq<Occurrence>
    requires n <= |input.occurrences|
  {
    Chosen(input.occurrences[..n], Due(input), Same())
  }

  lemma DueListGood(input: Input)
    requires InputFailure(input).None?
    ensures GoodWindows(DueList(input, |input.occurrences|))
  {
    var all := input.occurrences;
    assert all[..|all|] == all;
    forall i | 0 <= i < |all| ensures all[i].windowStart < all[i].windowEnd {
      AcceptedOccurrence(input, i);
    }
    FaultlessDistinguished(all, OccurrenceId, OccurrenceFault(input.asOf));
    assert forall i, j :: 0 <= i < j < |all| ==> OccurrenceId(all[i]) != OccurrenceId(all[j]);
    ChosenHold(all, Due(input), Same(), (o: Occurrence) => o.windowStart < o.windowEnd);
    ChosenRelated(all, Due(input), Same(), (o: Occurrence, p: Occurrence) => o.id != p.id);
  }

  ghost predicate Answered(input: Input, eligibilities: map<Id, Eligibility>, i: nat)
    requires i < |input.occurrences|
  {
    IsDue(input, input.occurrences[i]) ==> Answers(input.pauses, input.preserves, eligibilities, input.occurrences[i])
  }

  method FilterDue(input: Input) returns (due: seq<Occurrence>)
    ensures due == DueList(input, |input.occurrences|)
  {
    due := [];
    for n := 0 to |input.occurrences|
      invariant due == DueList(input, n)
    {
      assert input.occurrences[..n + 1] == input.occurrences[..n] + [input.occurrences[n]];
      ChosenAppend(input.occurrences[..n], input.occurrences[n], Due(input), Same());
      if IsDue(input, input.occurrences[n]) {
        due := due + [input.occurrences[n]];
      }
    }
  }

  lemma DueListed(input: Input, i: nat) returns (k: nat)
    requires i < |input.occurrences| && IsDue(input, input.occurrences[i])
    ensures k < |DueList(input, |input.occurrences|)| && DueList(input, |input.occurrences|)[k] == input.occurrences[i]
  {
    var all := input.occurrences;
    assert all[..|all|] == all;
    ChosenMember(all, Due(input), Same(), i);
    k :| 0 <= k < |DueList(input, |all|)| && DueList(input, |all|)[k] == all[i];
  }

  /** `analytics_eligibilities`: the filtered sweep answers every due occurrence like the naive check. */
  method AnalyticsEligibilities(input: Input) returns (eligibilities: map<Id, Eligibility>)
    requires InputFailure(input).None?
    ensures forall i {:trigger Answered(input, eligibilities, i)} :: 0 <= i < |input.occurrences| ==> Answered(input, eligibilities, i)
  {
    var due := FilterDue(input);
    DueListGood(input);
    eligibilities := SweepEligibilities(input.pauses, due, input.preserves);
    forall i | 0 <= i < |input.occurrences| ensures Answered(input, eligibilities, i) {
      if IsDue(input, input.occurrences[i]) {
        var k := DueListed(input, i);
        assert Answers(input.pauses, input.preserves, eligibilities, due[k]);
      }
    }
  }

  // ---- Streak dates ----

  /** Whether all eligible occurrences of each date that has one were completed. */
  ghost function StreakMap(s: seq<Observation>): map<CivilDate, bool> {
    if s == [] then map[]
    else StreakUpdate(StreakMap(s[..|s| - 1]), s[|s| - 1])
  }

  function StreakUpdate(m: map<CivilDate, bool>, o: Observation): map<CivilDate, bool> {
    if o.eligibility.PausedProtected? then m
    else m[o.date := (o.date in m ==> m[o.date]) && o.value.outcome.Completed?]
  }

  ghost predicate CountsOn(o: Observation, d: CivilDate) {
    o.date == d && !o.eligibility.PausedProtected?
  }

  /** A date takes part in streaks exactly when it has an occurrence that is not protected, and is
      successful exactly when all of those are completed. */
  lemma {:induction false} StreakMapMeaning(s: seq<Observation>, d: CivilDate)
    ensures d in StreakMap(s) <==> exists i :: 0 <= i < |s| && CountsOn(s[i], d)
    ensures d in StreakMap(s) ==>
      (StreakMap(s)[d] <==> forall i :: 0 <= i < |s| && CountsOn(s[i], d) ==> s[i].value.outcome.Completed?)
  {
    if s != [] {
      var n := |s| - 1;
      StreakMapMeaning(s[..n], d);
      assert forall i :: 0 <= i < n ==> s[..n][i] == s[i];
      if d in StreakMap(s[..n]) {
        var i :| 0 <= i < n && CountsOn(s[..n][i], d);
        assert CountsOn(s[i], d);
      }
      if CountsOn(s[n], d) {
        assert d in StreakMap(s);
      }
    }
  }

  /** No more days take part in streaks than there are occurrences. */
  lemma {:induction false} StreakMapSize(s: seq<Observation>)
    ensures |StreakMap(s)| <= |s|
  {
    if s != [] {
      var n := |s| - 1;
      StreakMapSize(s[..n]);
      var before, after := StreakMap(s[..n]), StreakMap(s);
      SubsetCardinality(after.Keys, before.Keys + {s[n].date});
      assert |after| == |after.Keys| && |before| == |before.Keys|;
    }
  }

  // ---- One pass over the occurrences ----

  lemma TallyAppend(s: seq<Observation>, o: Observation)
    ensures TallyOf(s + [o]) == Observed(TallyOf(s), o)
    ensures StreakMap(s + [o]) == StreakUpdate(StreakMap(s), o)
  {
    assert (s + [o])[..|s|] == s;
  }

  lemma BucketGood(s: seq<Observation>, start: Date, granularity: Granularity, weekStartsOn: DayOfWeek)
    requires AllGood(s)
    ensures AllGood(InBucketOf(s, start, granularity, weekStartsOn)) && |InBucketOf(s, start, granularity, weekStartsOn)| <= |s|
  {
    ChosenHold(s, FallsInto(start, granularity, weekStartsOn), Itself(), (o: Observation) => GoodValue(o.value));
  }

  ghost function BucketTally(s: seq<Observation>, start: Date, granularity: Granularity, weekStartsOn: DayOfWeek): Tally {
    TallyOf(InBucketOf(s, start, granularity, weekStartsOn))
  }

  /** Observing `o` changes only its own bucket, and nothing overflows. */
  lemma BucketTallyStep(s: seq<Observation>, o: Observation, start: Date, granularity: Granularity, weekStartsOn: DayOfWeek)
    requires AllGood(s + [o]) && |s + [o]| <= MAX_OCCURRENCES
    ensures Fits(BucketTally(s, start, granularity, weekStartsOn)) && Fits(BucketTally(s + [o], start, granularity, weekStartsOn))
    ensures BucketTally(s + [o], start, granularity, weekStartsOn) ==
      if BucketStart(o.date, granularity, weekStartsOn) == start then Observed(BucketTally(s, start, granularity, weekStartsOn), o)
      else BucketTally(s, start, granularity, weekStartsOn)
  {
    assert AllGood(s) by {
      assert forall i :: 0 <= i < |s| ==> s[i] == (s + [o])[i];
    }
    BucketGood(s, start, granularity, weekStartsOn);
    BucketGood(s + [o], start, granularity, weekStartsOn);
    TalliesBalance(InBucketOf(s, start, granularity, weekStartsOn));
    TalliesBalance(InBucketOf(s + [o], start, granularity, weekStartsOn));
    ChosenAppend(s, o, FallsInto(start, granularity, weekStartsOn), Itself());
    TallyAppend(InBucketOf(s, start, granularity, weekStartsOn), o);
  }

  ghost predicate BucketView(trend: map<Date, MutableTally>, d: Date, s: seq<Observation>, granularity: Granularity, weekStartsOn: DayOfWeek)
    requires d in trend
    reads trend[d]
  {
    trend[d].View() == BucketTally(s, d, granularity, weekStartsOn)
  }

  /** No two buckets share a tally, and none is the total. */
  ghost predicate Separate(total: MutableTally, trend: map<Date, MutableTally>) {
    && (forall d :: d in trend ==> trend[d] != total)
    && (forall d, e :: d in trend && e in trend && d != e ==> trend[d] != trend[e])
  }

  method EmptyTrend(starts: seq<Date>) returns (trend: map<Date, MutableTally>)
    ensures trend.Keys == Elements(starts)
    ensures forall d :: d in trend ==> fresh(trend[d]) && trend[d].View() == EMPTY
    ensures forall d, e :: d in trend && e in trend && d != e ==> trend[d] != trend[e]
  {
    trend := map[];
    for i := 0 to |starts|
      invariant trend.Keys == Elements(starts[..i])
      invariant forall d :: d in trend ==> fresh(trend[d]) && trend[d].View() == EMPTY
      invariant forall d, e :: d in trend && e in trend && d != e ==> trend[d] != trend[e]
    {
      var tally := new MutableTally();
      assert starts[..i + 1] == starts[..i] + [starts[i]];
      ElementsAppend(starts[..i], starts[i]);
      trend := trend[starts[i] := tally];
    }
    assert starts[..|starts|] == starts;
  }

  /** Observes one due occurrence in the total and in its bucket. */
  method ObserveDue(input: Input, total: MutableTally, trend: map<Date, MutableTally>, o: Observation, ghost s: seq<Observation>) returns (ok: bool)
    requires AllGood(s + [o]) && |s + [o]| <= MAX_OCCURRENCES
    requires Separate(total, trend) && BucketStart(o.date, input.granularity, input.weekStartsOn) in trend
    requires total.View() == TallyOf(s)
    requires forall d {:trigger BucketView(trend, d, s, input.granularity, input.weekStartsOn)} ::
      d in trend ==> BucketView(trend, d, s, input.granularity, input.weekStartsOn)
    modifies total, trend[BucketStart(o.date, input.granularity, input.weekStartsOn)]
    ensures ok
    ensures total.View() == TallyOf(s + [o])
    ensures forall d {:trigger BucketView(trend, d, s + [o], input.granularity, input.weekStartsOn)} ::
      d in trend ==> BucketView(trend, d, s + [o], input.granularity, input.weekStartsOn)
  {
    var own := BucketStart(o.date, input.granularity, input.weekStartsOn);
    TallyAppend(s, o);
    assert AllGood(s) by {
      assert forall i :: 0 <= i < |s| ==> s[i] == (s + [o])[i];
    }
    TalliesBalance(s);
    TalliesBalance(s + [o]);
    assert BucketView(trend, own, s, input.granularity, input.weekStartsOn);
    BucketTallyStep(s, o, own, input.granularity, input.weekStartsOn);
    var counted := total.Observe(o);
    var bucketed := trend[own].Observe(o);
    ok := counted && bucketed;
    forall d | d in trend ensures BucketView(trend, d, s + [o], input.granularity, input.weekStartsOn) {
      BucketTallyStep(s, o, d, input.granularity, input.weekStartsOn);
      if d != own {
        assert old(BucketView(trend, d, s, input.granularity, input.weekStartsOn));
      }
    }
  }

  // ---- Dates in order ----

  ghost predicate InDateOrder(dates: seq<CivilDate>) {
    forall i, j :: 0 <= i < j < |dates| ==> Earlier(dates[i], dates[j])
  }

  predicate Earlier(d: CivilDate, e: CivilDate) {
    DayNumber(d) < DayNumber(e)
  }

  ghost predicate IsEarliest(dates: set<CivilDate>, d: CivilDate) {
    d in dates && forall e :: e in dates ==> DayNumber(d) <= DayNumber(e)
  }

  lemma {:induction false} EarliestExists(dates: set<CivilDate>)
    requires dates != {}
    ensures exists d :: IsEarliest(dates, d)
  {
    var d :| d in dates;
    if dates == {d} {
      assert IsEarliest(dates, d);
    } else {
      EarliestExists(dates - {d});
      var e :| IsEarliest(dates - {d}, e);
      assert IsEarliest(dates, if DayNumber(d) < DayNumber(e) then d else e);
    }
  }

  method Earliest(dates: set<CivilDate>) returns (d: CivilDate)
    requires dates != {}
    ensures IsEarliest(dates, d)
  {
    EarliestExists(dates);
    d :| d in dates && forall e :: e in dates ==> DayNumber(d) <= DayNumber(e);
  }

  ghost function Flags(m: map<CivilDate, bool>, dates: seq<CivilDate>): seq<bool>
    requires Elements(dates) <= m.Keys
  {
    seq(|dates|, i requires 0 <= i < |dates| => assert dates[i] in Elements(dates); m[dates[i]])
  }

  /** The streak lengths of the days that take part, read in date order. */
  ghost predicate StreaksOf(m: map<CivilDate, bool>, current: nat, longest: nat) {
    exists dates {:trigger InDateOrder(dates)} ::
      InDateOrder(dates) && Elements(dates) == m.Keys && StreakLengths(Flags(m, dates), current, longest)
  }

  ghost predicate AllEarlier(ordered: seq<CivilDate>, rest: set<CivilDate>) {
    forall i, d :: 0 <= i < |ordered| && d in rest ==> Earlier(ordered[i], d)
  }

  lemma EarliestNext(ordered: seq<CivilDate>, rest: set<CivilDate>, d: CivilDate)
    requires InDateOrder(ordered) && AllEarlier(ordered, rest) && IsEarliest(rest, d)
    ensures InDateOrder(ordered + [d]) && AllEarlier(ordered + [d], rest - {d})
  {
    forall e | e in rest - {d} ensures Earlier(d, e) {
      DayNumberOrder(d, e);
    }
  }

  method DatesInOrder(dates: set<CivilDate>) returns (ordered: seq<CivilDate>)
    ensures InDateOrder(ordered) && Elements(ordered) == dates
  {
    var rest := dates;
    ordered := [];
    while rest != {}
      invariant rest <= dates && Elements(ordered) == dates - rest
      invariant InDateOrder(ordered) && AllEarlier(ordered, rest)
      decreases |rest|
    {
      var d := Earliest(rest);
      EarliestNext(ordered, rest, d);
      ElementsAppend(ordered, d);
      assert dates - (rest - {d}) == (dates - rest) + {d};
      ordered, rest := ordered + [d], rest - {d};
    }
    assert dates - {} == dates;
  }

  lemma {:induction false} OrderedDistinct(dates: seq<CivilDate>)
    requires InDateOrder(dates)
    ensures Distinct(dates) && |Elements(dates)| == |dates|
  {
    forall i, j | 0 <= i < j < |dates| ensures dates[i] != dates[j] {
      assert Earlier(dates[i], dates[j]);
    }
    DistinctCardinality(dates);
  }

  /** Overflows only where more days take part than 32 bits can count. */
  method StreaksInDateOrder(m: map<CivilDate, bool>) returns (r: Result<(nat, nat), Overflow>)
    ensures |m| <= U32_MAX ==> r.Ok?
    ensures r.Ok? ==> StreaksOf(m, r.value.0, r.value.1)
  {
    var dates := DatesInOrder(m.Keys);
    OrderedDistinct(dates);
    assert |dates| == |m.Keys| == |m|;
    var flags := seq(|dates|, i requires 0 <= i < |dates| => assert dates[i] in Elements(dates); m[dates[i]]);
    r := Streaks(flags);
    assert flags == Flags(m, dates);
  }

  // ---- The report ----

  datatype Bucket = Bucket(start: Date, tally: Tally, adherence: Option<nat>)

  datatype Analytics = Analytics(totals: Tally, adherence: Option<nat>, currentStreak: nat, longestStreak: nat, buckets: seq<Bucket>)

  /** The bucket starts run from the bucket of the range start to that of the effective end. */
  ghost predicate Covers(input: Input, starts: seq<Date>) {
    if DayNumber(EffectiveEnd(input)) < DayNumber(input.rangeStart) then starts == []
    else
      && starts != [] && Tiles(starts, input.granularity, input.weekStartsOn)
      && starts[0] == BucketStart(input.rangeStart, input.granularity, input.weekStartsOn)
      && starts[|starts| - 1] == BucketStart(EffectiveEnd(input), input.granularity, input.weekStartsOn)
  }

  ghost function Starts(buckets: seq<Bucket>): seq<Date> {
    seq(|buckets|, i requires 0 <= i < |buckets| => buckets[i].start)
  }

  ghost predicate BucketReports(input: Input, bucket: Bucket) {
    && bucket.tally == BucketTally(AllDue(input), bucket.start, input.granularity, input.weekStartsOn)
    && Adherence(bucket.tally) == Ok(bucket.adherence)
  }

  /** What the report says about the due occurrences, whose eligibility is the naive one. */
  ghost predicate Reports(input: Input, a: Analytics) {
    && a.totals == TallyOf(AllDue(input)) && Adherence(a.totals) == Ok(a.adherence)
    && StreaksOf(StreakMap(AllDue(input)), a.currentStreak, a.longestStreak)
    && Covers(input, Starts(a.buckets))
    && forall i :: 0 <= i < |a.buckets| ==> BucketReports(input, a.buckets[i])
  }

  method TrendStarts(input: Input) returns (starts: seq<Date>)
    ensures Covers(input, starts)
  {
    if DayNumber(EffectiveEnd(input)) < DayNumber(input.rangeStart) {
      starts := [];
    } else {
      starts := EmptyTrendBuckets(input.rangeStart, EffectiveEnd(input), input.granularity, input.weekStartsOn);
    }
  }

  lemma OwnBucketExists(input: Input, starts: seq<Date>, date: CivilDate)
    requires Covers(input, starts) && InRange(input, date)
    ensures Distinct(starts)
    ensures BucketStart(date, input.granularity, input.weekStartsOn) in starts
  {
    ExactlyOneBucket(starts, input.rangeStart, EffectiveEnd(input), input.granularity, input.weekStartsOn, date);
  }

  ghost predicate Viewed(input: Input, total: MutableTally, trend: map<Date, MutableTally>, s: seq<Observation>)
    reads total, trend.Values
  {
    && total.View() == TallyOf(s)
    && forall d {:trigger BucketView(trend, d, s, input.granularity, input.weekStartsOn)} ::
         d in trend ==> BucketView(trend, d, s, input.granularity, input.weekStartsOn)
  }

  /** Every date of the range has its bucket. */
  ghost predicate HasBuckets(input: Input, trend: map<Date, MutableTally>) {
    forall date: CivilDate {:trigger InRange(input, date)} ::
      InRange(input, date) ==> BucketStart(date, input.granularity, input.weekStartsOn) in trend
  }

  ghost predicate Bounded(input: Input, n: nat)
    requires n <= |input.occurrences|
  {
    AllGood(DueTo(input, n)) && |DueTo(input, n)| <= MAX_OCCURRENCES
  }

  /** Every occurrence that the loop meets is answered and bounded. */
  ghost predicate Prepared(input: Input, eligibilities: map<Id, Eligibility>) {
    && (forall n {:trigger Answered(input, eligibilities, n)} :: 0 <= n < |input.occurrences| ==> Answered(input, eligibilities, n))
    && (forall n {:trigger Bounded(input, n)} :: 0 <= n <= |input.occurrences| ==> Bounded(input, n))
  }

  /** Observes the `n`th occurrence if it is due; its eligibility and its bucket are there. */
  method TallyOne(input: Input, n: nat, eligibilities: map<Id, Eligibility>, total: MutableTally, trend: map<Date, MutableTally>,
                  streaks: map<CivilDate, bool>)
    returns (ok: bool, after: map<CivilDate, bool>)
    requires n < |input.occurrences| && Answered(input, eligibilities, n) && Bounded(input, n + 1) && HasBuckets(input, trend)
    requires Separate(total, trend) && Viewed(input, total, trend, DueTo(input, n)) && streaks == StreakMap(DueTo(input, n))
    modifies total, trend.Values
    ensures ok && Viewed(input, total, trend, DueTo(input, n + 1)) && after == StreakMap(DueTo(input, n + 1))
  {
    var o := input.occurrences[n];
    ok, after := true, streaks;
    DueNext(input, n);
    if IsDue(input, o) {
      var observed := Observation(o.localDate, o.value, eligibilities[o.id]);
      TallyAppend(DueTo(input, n), observed);
      ok := ObserveDue(input, total, trend, observed, DueTo(input, n));
      after := StreakUpdate(streaks, observed);
    }
  }

  /** The loop over the occurrences; every lookup succeeds and nothing overflows. */
  method TallyDue(input: Input, eligibilities: map<Id, Eligibility>, total: MutableTally, trend: map<Date, MutableTally>)
    returns (ok: bool, streaks: map<CivilDate, bool>)
    requires Prepared(input, eligibilities) && HasBuckets(input, trend)
    requires Separate(total, trend) && Viewed(input, total, trend, [])
    modifies total, trend.Values
    ensures ok && Viewed(input, total, trend, AllDue(input)) && streaks == StreakMap(AllDue(input))
  {
    ok, streaks := true, map[];
    for n := 0 to |input.occurrences|
      invariant ok && Viewed(input, total, trend, DueTo(input, n)) && streaks == StreakMap(DueTo(input, n))
    {
      assert Answered(input, eligibilities, n) && Bounded(input, n + 1);
      var added;
      added, streaks := TallyOne(input, n, eligibilities, total, trend, streaks);
      ok := ok && added;
    }
  }

  lemma AllBounded(input: Input)
    requires InputFailure(input).None?
    ensures forall n {:trigger Bounded(input, n)} :: 0 <= n <= |input.occurrences| ==> Bounded(input, n)
  {
    forall n | 0 <= n <= |input.occurrences| ensures Bounded(input, n) {
      DueFacts(input, n);
    }
  }

  lemma TrendHasBuckets(input: Input, starts: seq<Date>, trend: map<Date, MutableTally>)
    requires Covers(input, starts) && trend.Keys == Elements(starts)
    ensures HasBuckets(input, trend)
  {
    forall date: CivilDate | InRange(input, date) ensures BucketStart(date, input.granularity, input.weekStartsOn) in trend {
      OwnBucketExists(input, starts, date);
    }
  }

  lemma BucketAdherence(input: Input, start: Date)
    requires InputFailure(input).None?
    ensures Adherence(BucketTally(AllDue(input), start, input.granularity, input.weekStartsOn)).Ok?
  {
    DueFacts(input, |input.occurrences|);
    BucketGood(AllDue(input), start, input.granularity, input.weekStartsOn);
    AdherenceIsMean(InBucketOf(AllDue(input), start, input.granularity, input.weekStartsOn));
  }

  /** One bucket of the report; its adherence does not overflow. */
  method ReportBucket(input: Input, start: Date, trend: map<Date, MutableTally>) returns (r: Result<Bucket, Overflow>)
    requires InputFailure(input).None? && start in trend
    requires BucketView(trend, start, AllDue(input), input.granularity, input.weekStartsOn)
    ensures r.Ok? && r.value.start == start && BucketReports(input, r.value)
  {
    BucketAdherence(input, start);
    var tally := trend[start].View();
    var adherence := Adherence(tally);
    r := if adherence.Ok? then Ok(Bucket(start, tally, adherence.value)) else Err(Overflow);
  }

  ghost predicate ReportedAt(input: Input, starts: seq<Date>, buckets: seq<Bucket>, i: int)
    requires 0 <= i < |starts| && |buckets| > i
  {
    buckets[i].start == starts[i] && BucketReports(input, buckets[i])
  }

  /** The buckets of the report; no adherence overflows. */
  method ReportBuckets(input: Input, starts: seq<Date>, trend: map<Date, MutableTally>) returns (r: Result<seq<Bucket>, Overflow>)
    requires InputFailure(input).None? && trend.Keys == Elements(starts)
    requires forall d {:trigger BucketView(trend, d, AllDue(input), input.granularity, input.weekStartsOn)} ::
      d in trend ==> BucketView(trend, d, AllDue(input), input.granularity, input.weekStartsOn)
    ensures r.Ok? && Starts(r.value) == starts
    ensures forall i :: 0 <= i < |r.value| ==> BucketReports(input, r.value[i])
  {
    var buckets: seq<Bucket> := [];
    var overflow := false;
    for n := 0 to |starts|
      invariant !overflow && |buckets| == n
      invariant forall i {:trigger ReportedAt(input, starts, buckets, i)} :: 0 <= i < n ==> ReportedAt(input, starts, buckets, i)
    {
      ghost var before := buckets;
      assert starts[n] in Elements(starts);
      var bucket := ReportBucket(input, starts[n], trend);
      overflow := overflow || bucket.Err?;
      buckets := if bucket.Ok? then buckets + [bucket.value] else buckets;
      forall i | 0 <= i <= n ensures ReportedAt(input, starts, buckets, i) {
        assert i < n ==> ReportedAt(input, starts, before, i);
      }
    }
    forall i | 0 <= i < |buckets| ensures buckets[i].start == starts[i] && BucketReports(input, buckets[i]) {
      assert ReportedAt(input, starts, buckets, i);
    }
    r := if overflow then Err(Overflow) else Ok(buckets);
  }

  /** `calculate_habit_analytics`: fails exactly on invalid input, with the first complaint, and
      otherwise reports the due occurrences. The overflow of a tally, of the streaks or of an
      adherence has a branch of its own, and none of them is reachable. */
  method CalculateHabitAnalytics(input: Input) returns (r: Result<Analytics, Failure>)
    ensures r.Err? <==> InputFailure(input).Some?
    ensures r.Err? ==> r.error == InputFailure(input).value
    ensures r.Ok? ==> Reports(input, r.value)
  {
    var fault := ValidateInput(input);
    if fault.Some? {
      return Err(fault.value);
    }
    var starts := TrendStarts(input);
    var trend := EmptyTrend(starts);
    var total := new MutableTally();
    TrendHasBuckets(input, starts, trend);
    var eligibilities := AnalyticsEligibilities(input);
    AllBounded(input);
    var tallied, streakDates := TallyDue(input, eligibilities, total, trend);
    DueFacts(input, |input.occurrences|);
    StreakMapSize(AllDue(input));
    var streaks := StreaksInDateOrder(streakDates);
    var totals := total.View();
    AdherenceIsMean(AllDue(input));
    var adherence := Adherence(totals);
    var buckets := ReportBuckets(input, starts, trend);
    r := if tallied && streaks.Ok? && adherence.Ok? && buckets.Ok?
         then Ok(Analytics(totals, adherence.value, streaks.value.0, streaks.value.1, buckets.value))
         else Err(ArithmeticOverflow);
  }
}
