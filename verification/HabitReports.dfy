/** What an analytics report means: it conserves and balances, and the order of its input is irrelevant. */
module HabitReports {
  import opened Base
  import opened Calendar
  import opened Folds
  import opened HabitRecords
  import opened HabitPauses
  import opened HabitTrends
  import opened HabitAnalytics
  import opened HabitProjection

  // ---- Conservation and balance ----

  ghost function BucketTotal(buckets: seq<Bucket>, m: Measure): int {
    if buckets == [] then 0 else BucketTotal(buckets[..|buckets| - 1], m) + Measured(buckets[|buckets| - 1].tally, m)
  }

  lemma {:induction false} BucketTotals(due: seq<Observation>, granularity: Granularity, weekStartsOn: DayOfWeek, buckets: seq<Bucket>, m: Measure)
    requires forall i :: 0 <= i < |buckets| ==> buckets[i].tally == BucketTally(due, buckets[i].start, granularity, weekStartsOn)
    ensures BucketTotal(buckets, m) == BucketSum(Starts(buckets), due, granularity, weekStartsOn, m)
  {
    if buckets != [] {
      var n := |buckets| - 1;
      BucketTotals(due, granularity, weekStartsOn, buckets[..n], m);
      assert Starts(buckets)[..n] == Starts(buckets[..n]);
    }
  }

  /** Every count, second and quantity of the report, summed over its buckets, is its total. */
  lemma ReportConserves(input: Input, a: Analytics, m: Measure)
    requires InputFailure(input).None? && Reports(input, a)
    ensures BucketTotal(a.buckets, m) == Measured(a.totals, m)
  {
    var starts, due := Starts(a.buckets), AllDue(input);
    BucketTotals(due, input.granularity, input.weekStartsOn, a.buckets, m);
    DueFacts(input, |input.occurrences|);
    assert AllSound(input, due);
    forall i | 0 <= i < |due| ensures BucketStart(due[i].date, input.granularity, input.weekStartsOn) in starts && Distinct(starts) {
      OwnBucketExists(input, starts, due[i].date);
    }
    if due == [] {
      EmptyBucketSum(starts, input.granularity, input.weekStartsOn, m);
    } else {
      assert Distinct(starts) by {
        OwnBucketExists(input, starts, due[0].date);
      }
      BucketsConserve(starts, due, input.granularity, input.weekStartsOn, m);
    }
  }

  /** Due splits into eligible and protected, eligible splits by outcome, and the adherence is the
      mean progress of the eligible to within half a basis point. */
  ghost predicate Balanced(t: Tally, adherence: Option<nat>) {
    && Fits(t)
    && t.counts.due == t.counts.eligible + t.counts.protectedPaused
    && t.counts.eligible == t.counts.completed + t.counts.partial + t.counts.skipped + t.counts.pending
    && IsMean(adherence, t.adherenceSum, t.counts.eligible)
  }

  /** The report is balanced and its adherence is a mean, for the total and for every bucket. */
  lemma ReportBalances(input: Input, a: Analytics)
    requires InputFailure(input).None? && Reports(input, a)
    ensures Balanced(a.totals, a.adherence)
    ensures forall i :: 0 <= i < |a.buckets| ==> Balanced(a.buckets[i].tally, a.buckets[i].adherence)
  {
    var due := AllDue(input);
    DueFacts(input, |input.occurrences|);
    TalliesBalance(due);
    AdherenceIsMean(due);
    forall i | 0 <= i < |a.buckets| ensures Balanced(a.buckets[i].tally, a.buckets[i].adherence) {
      assert BucketReports(input, a.buckets[i]);
      BucketGood(due, a.buckets[i].start, input.granularity, input.weekStartsOn);
      TalliesBalance(InBucketOf(due, a.buckets[i].start, input.granularity, input.weekStartsOn));
      AdherenceIsMean(InBucketOf(due, a.buckets[i].start, input.granularity, input.weekStartsOn));
    }
  }

  // ---- The due occurrences as a bag ----

  lemma DueBagPermutes(input: Input, b: seq<Occurrence>)
    requires multiset(input.occurrences) == multiset(b)
    ensures multiset(AllDue(input.(occurrences := b))) == multiset(AllDue(input))
  {
    var a, given := input.occurrences, input.(occurrences := b);
    assert a[..|a|] == a && b[..|b|] == b;
    SameChoice(b, given, input);
    ChosenPermutes(a, b, Due(input), Seen(input));
  }

  /** What is due and how it is seen does not depend on the list of occurrences. */
  lemma {:induction false} SameChoice(s: seq<Occurrence>, x: Input, y: Input)
    requires x.(occurrences := y.occurrences) == y
    ensures Chosen(s, Due(x), Seen(x)) == Chosen(s, Due(y), Seen(y))
  {
    if s != [] {
      SameChoice(s[..|s| - 1], x, y);
      SameDue(s[|s| - 1], x, y);
    }
  }

  lemma SameDue(o: Occurrence, x: Input, y: Input)
    requires x.(occurrences := y.occurrences) == y
    ensures IsDue(x, o) == IsDue(y, o) && ObservationOf(x, o) == ObservationOf(y, o)
  {
  }

  // ---- Tallies and streak days depend only on the bag ----

  function ObserveStep(): (Tally, Observation) -> Tally {
    (t, o) => Observed(t, o)
  }

  lemma {:induction false} TallyAccumulates(s: seq<Observation>)
    ensures TallyOf(s) == Accumulate(EMPTY, s, ObserveStep())
  {
    if s != [] {
      TallyAccumulates(s[..|s| - 1]);
    }
  }

  lemma QuantitiesExchange(quantities: map<string, int>, p: Option<Quantity>, q: Option<Quantity>)
    ensures AddQuantity(AddQuantity(quantities, p), q) == AddQuantity(AddQuantity(quantities, q), p)
  {
  }

  lemma MeasuresExchange(t: Tally, p: Observation, q: Observation, m: Measure)
    ensures Measured(Observed(Observed(t, p), q), m) == Measured(Observed(Observed(t, q), p), m)
  {
    ObservedAdds(t, p, m);
    ObservedAdds(t, q, m);
    ObservedAdds(Observed(t, p), q, m);
    ObservedAdds(Observed(t, q), p, m);
  }

  lemma SameMeasures(t: Tally, u: Tally)
    requires t.quantities == u.quantities && forall m :: Measured(t, m) == Measured(u, m)
    ensures t == u
  {
    assert Measured(t, DueCount) == Measured(u, DueCount) && Measured(t, EligibleCount) == Measured(u, EligibleCount);
    assert Measured(t, PausedCount) == Measured(u, PausedCount) && Measured(t, ProtectedCount) == Measured(u, ProtectedCount);
    assert Measured(t, CompletedCount) == Measured(u, CompletedCount) && Measured(t, PartialCount) == Measured(u, PartialCount);
    assert Measured(t, SkippedCount) == Measured(u, SkippedCount) && Measured(t, PendingCount) == Measured(u, PendingCount);
    assert Measured(t, MissedSkipCount) == Measured(u, MissedSkipCount);
    assert Measured(t, PartialProgressCount) == Measured(u, PartialProgressCount);
    assert Measured(t, ProgressSum) == Measured(u, ProgressSum) && Measured(t, SecondsTotal) == Measured(u, SecondsTotal);
  }

  lemma ObservedQuantities(t: Tally, o: Observation)
    ensures Observed(t, o).quantities == AddQuantity(t.quantities, o.value.quantity)
  {
  }

  lemma ObservedExchange(t: Tally, p: Observation, q: Observation)
    ensures Observed(Observed(t, p), q) == Observed(Observed(t, q), p)
  {
    forall m ensures Measured(Observed(Observed(t, p), q), m) == Measured(Observed(Observed(t, q), p), m) {
      MeasuresExchange(t, p, q, m);
    }
    ObservedQuantities(t, p);
    ObservedQuantities(t, q);
    ObservedQuantities(Observed(t, p), q);
    ObservedQuantities(Observed(t, q), p);
    QuantitiesExchange(t.quantities, p.value.quantity, q.value.quantity);
    SameMeasures(Observed(Observed(t, p), q), Observed(Observed(t, q), p));
  }

  lemma TallyPermutes(a: seq<Observation>, b: seq<Observation>)
    requires multiset(a) == multiset(b)
    ensures TallyOf(a) == TallyOf(b)
  {
    forall t, p, q ensures Exchange(ObserveStep(), t, p, q) {
      ObservedExchange(t, p, q);
    }
    TallyAccumulates(a);
    TallyAccumulates(b);
    AccumulatePermute(EMPTY, a, b, ObserveStep());
  }

  function StreakStep(): (map<CivilDate, bool>, Observation) -> map<CivilDate, bool> {
    (m, o) => StreakUpdate(m, o)
  }

  lemma {:induction false} StreaksAccumulate(s: seq<Observation>)
    ensures StreakMap(s) == Accumulate(map[], s, StreakStep())
  {
    if s != [] {
      StreaksAccumulate(s[..|s| - 1]);
    }
  }

  lemma StreakExchange(m: map<CivilDate, bool>, p: Observation, q: Observation)
    ensures StreakUpdate(StreakUpdate(m, p), q) == StreakUpdate(StreakUpdate(m, q), p)
  {
  }

  lemma StreakMapPermutes(a: seq<Observation>, b: seq<Observation>)
    requires multiset(a) == multiset(b)
    ensures StreakMap(a) == StreakMap(b)
  {
    forall m, p, q ensures Exchange(StreakStep(), m, p, q) {
      StreakExchange(m, p, q);
    }
    StreaksAccumulate(a);
    StreaksAccumulate(b);
    AccumulatePermute(map[], a, b, StreakStep());
  }

  lemma BucketTallyPermutes(a: seq<Observation>, b: seq<Observation>, start: Date, granularity: Granularity, weekStartsOn: DayOfWeek)
    requires multiset(a) == multiset(b)
    ensures BucketTally(a, start, granularity, weekStartsOn) == BucketTally(b, start, granularity, weekStartsOn)
  {
    ChosenPermutes(a, b, FallsInto(start, granularity, weekStartsOn), Itself());
    TallyPermutes(InBucketOf(a, start, granularity, weekStartsOn), InBucketOf(b, start, granularity, weekStartsOn));
  }

  // ---- A report is determined by its days ----

  lemma {:induction false} OrderedUnique(a: seq<CivilDate>, b: seq<CivilDate>)
    requires InDateOrder(a) && InDateOrder(b) && Elements(a) == Elements(b)
    ensures a == b
    decreases |a|
  {
    OrderedDistinct(a);
    OrderedDistinct(b);
    if a != [] {
      var n := |a| - 1;
      LastIsLatest(a, b);
      PopLast(a);
      PopLast(b);
      OrderedUnique(a[..n], b[..n]);
      assert a == a[..n] + [a[n]] && b == b[..n] + [b[n]];
    }
  }

  lemma LastIsLatest(a: seq<CivilDate>, b: seq<CivilDate>)
    requires InDateOrder(a) && InDateOrder(b) && Elements(a) == Elements(b) && |a| == |b| > 0
    ensures a[|a| - 1] == b[|b| - 1]
  {
    var n := |a| - 1;
    assert a[n] in Elements(b) && b[n] in Elements(a);
    var i :| 0 <= i < |b| && b[i] == a[n];
    var j :| 0 <= j < |a| && a[j] == b[n];
    assert i == n || Earlier(a[n], b[n]);
    assert j == n || Earlier(b[n], a[n]);
  }

  lemma StreakLengthsUnique(flags: seq<bool>, c: nat, l: nat, c': nat, l': nat)
    requires StreakLengths(flags, c, l) && StreakLengths(flags, c', l')
    ensures c == c' && l == l'
  {
  }

  lemma StreaksUnique(m: map<CivilDate, bool>, c: nat, l: nat, c': nat, l': nat)
    requires StreaksOf(m, c, l) && StreaksOf(m, c', l')
    ensures c == c' && l == l'
  {
    var a :| InDateOrder(a) && Elements(a) == m.Keys && StreakLengths(Flags(m, a), c, l);
    var b :| InDateOrder(b) && Elements(b) == m.Keys && StreakLengths(Flags(m, b), c', l');
    OrderedUnique(a, b);
    StreakLengthsUnique(Flags(m, a), c, l, c', l');
  }

  lemma {:induction false} TilesAgree(a: seq<Date>, b: seq<Date>, granularity: Granularity, weekStartsOn: DayOfWeek, n: nat)
    requires Tiles(a, granularity, weekStartsOn) && Tiles(b, granularity, weekStartsOn)
    requires n <= |a| && n <= |b| && (n > 0 ==> a[0] == b[0])
    ensures a[..n] == b[..n]
  {
    if n > 1 {
      TilesAgree(a, b, granularity, weekStartsOn, n - 1);
      assert Consecutive(a, granularity, n - 2) && Consecutive(b, granularity, n - 2);
      assert a[..n - 1][n - 2] == b[..n - 1][n - 2];
      assert a[..n] == a[..n - 1] + [a[n - 1]] && b[..n] == b[..n - 1] + [b[n - 1]];
    }
  }

  lemma TilesNoShorter(a: seq<Date>, b: seq<Date>, granularity: Granularity, weekStartsOn: DayOfWeek)
    requires Tiles(a, granularity, weekStartsOn) && Tiles(b, granularity, weekStartsOn)
    requires a != [] && b != [] && a[0] == b[0] && a[|a| - 1] == b[|b| - 1]
    ensures |a| >= |b|
  {
    if |a| < |b| {
      TilesAgree(a, b, granularity, weekStartsOn, |a|);
      assert a[..|a|][|a| - 1] == b[..|a|][|a| - 1];
      TilesAscend(b, granularity, weekStartsOn, |a| - 1, |b| - 1);
    }
  }

  lemma CoversUnique(input: Input, b: seq<Occurrence>, starts: seq<Date>, starts': seq<Date>)
    requires Covers(input, starts) && Covers(input.(occurrences := b), starts')
    ensures starts == starts'
  {
    if DayNumber(input.rangeStart) <= DayNumber(EffectiveEnd(input)) {
      TilesNoShorter(starts, starts', input.granularity, input.weekStartsOn);
      TilesNoShorter(starts', starts, input.granularity, input.weekStartsOn);
      TilesAgree(starts, starts', input.granularity, input.weekStartsOn, |starts|);
      assert starts == starts[..|starts|] && starts' == starts'[..|starts|];
    }
  }

  lemma SameBucket(input: Input, b: seq<Occurrence>, x: Bucket, y: Bucket)
    requires multiset(AllDue(input.(occurrences := b))) == multiset(AllDue(input)) && x.start == y.start
    requires BucketReports(input, x) && BucketReports(input.(occurrences := b), y)
    ensures x == y
  {
    BucketTallyPermutes(AllDue(input), AllDue(input.(occurrences := b)), x.start, input.granularity, input.weekStartsOn);
  }

  ghost predicate AllReport(input: Input, buckets: seq<Bucket>) {
    forall i :: 0 <= i < |buckets| ==> BucketReports(input, buckets[i])
  }

  lemma SameBuckets(input: Input, b: seq<Occurrence>, xs: seq<Bucket>, ys: seq<Bucket>)
    requires multiset(AllDue(input.(occurrences := b))) == multiset(AllDue(input))
    requires AllReport(input, xs) && AllReport(input.(occurrences := b), ys) && Starts(xs) == Starts(ys)
    ensures xs == ys
  {
    assert |xs| == |Starts(xs)| == |ys|;
    forall i | 0 <= i < |xs| ensures xs[i] == ys[i] {
      assert Starts(xs)[i] == xs[i].start && Starts(ys)[i] == ys[i].start;
      SameBucket(input, b, xs[i], ys[i]);
    }
  }

  lemma SameTotals(input: Input, b: seq<Occurrence>, x: Analytics, y: Analytics)
    requires multiset(AllDue(input.(occurrences := b))) == multiset(AllDue(input))
    requires Reports(input, x) && Reports(input.(occurrences := b), y)
    ensures x.totals == y.totals && x.adherence == y.adherence
    ensures x.currentStreak == y.currentStreak && x.longestStreak == y.longestStreak
  {
    var given := input.(occurrences := b);
    TallyPermutes(AllDue(input), AllDue(given));
    StreakMapPermutes(AllDue(input), AllDue(given));
    StreaksUnique(StreakMap(AllDue(input)), x.currentStreak, x.longestStreak, y.currentStreak, y.longestStreak);
  }

  /** Listing the occurrences in another order leaves the whole report unchanged: totals with every
      quantity, adherence, streaks and all buckets. */
  lemma ReportIgnoresOrder(input: Input, b: seq<Occurrence>, x: Analytics, y: Analytics)
    requires multiset(input.occurrences) == multiset(b)
    requires Reports(input, x) && Reports(input.(occurrences := b), y)
    ensures x == y
  {
    DueBagPermutes(input, b);
    SameTotals(input, b, x, y);
    CoversUnique(input, b, Starts(x.buckets), Starts(y.buckets));
    SameBuckets(input, b, x.buckets, y.buckets);
  }
}
