/** Habit analytics: tallies, adherence, streaks and trend buckets over the due occurrences. */
module HabitAnalytics {
  import opened Base
  import opened Calendar
  import opened HabitRecords
  import opened HabitPauses
  import opened HabitTrends
  import opened Folds

  const MAX_OCCURRENCES := 1_000_000
  const MAX_PAUSES := 100_000
  const MAX_RANGE_DAYS := 36_600

  // ---- Tallies ----

  datatype Counts = Counts(
    due: nat,
    eligible: nat,
    paused: nat,
    protectedPaused: nat,
    completed: nat,
    partial: nat,
    skipped: nat,
    pending: nat,
    missedPolicySkips: nat)

  const NO_COUNTS := Counts(0, 0, 0, 0, 0, 0, 0, 0, 0)

  datatype Tally = Tally(counts: Counts, adherenceSum: nat, actualSeconds: nat, quantities: map<string, int>, partialProgress: nat)

  const EMPTY := Tally(NO_COUNTS, 0, 0, map[], 0)

  /** One due occurrence as a tally sees it. */
  datatype Observation = Observation(date: CivilDate, value: Value, eligibility: Eligibility)

  predicate HasSomeProgress(v: Value) {
    1 <= v.progress < BASIS_POINTS_SCALE
  }

  function QuantityIn(quantities: map<string, int>, unit: string): int {
    if unit in quantities then quantities[unit] else 0
  }

  function AddQuantity(quantities: map<string, int>, q: Option<Quantity>): map<string, int> {
    if q.Some? then quantities[q.value.unit := QuantityIn(quantities, q.value.unit) + q.value.amount] else quantities
  }

  function SecondsOf(v: Value): nat {
    if v.actualSeconds.Some? then v.actualSeconds.value else 0
  }

  function CountOutcome(c: Counts, outcome: Outcome): Counts {
    match outcome
    case Pending => c.(pending := c.pending + 1)
    case Partial => c.(partial := c.partial + 1)
    case Completed => c.(completed := c.completed + 1)
    case Skipped(User) => c.(skipped := c.skipped + 1)
    case Skipped(MissedPolicy) => c.(skipped := c.skipped + 1, missedPolicySkips := c.missedPolicySkips + 1)
  }

  /** What observing one occurrence makes of a tally, without any bound on the numbers. */
  function Observed(t: Tally, o: Observation): Tally {
    var v := o.value;
    var due := t.counts.(due := t.counts.due + 1, paused := t.counts.paused + (if o.eligibility.Eligible? then 0 else 1));
    var seconds := t.actualSeconds + SecondsOf(v);
    var quantities := AddQuantity(t.quantities, v.quantity);
    if o.eligibility.PausedProtected? then
      Tally(due.(protectedPaused := due.protectedPaused + 1), t.adherenceSum, seconds, quantities, t.partialProgress)
    else
      OutcomeObserved(Tally(due, t.adherenceSum, seconds, quantities, t.partialProgress), v)
  }

  /** What the outcome and progress of an eligible occurrence add. */
  function OutcomeObserved(t: Tally, v: Value): Tally {
    t.(counts := CountOutcome(t.counts.(eligible := t.counts.eligible + 1), v.outcome),
       adherenceSum := t.adherenceSum + v.progress,
       partialProgress := t.partialProgress + if HasSomeProgress(v) then 1 else 0)
  }

  ghost function TallyOf(s: seq<Observation>): Tally {
    if s == [] then EMPTY else Observed(TallyOf(s[..|s| - 1]), s[|s| - 1])
  }

  predicate InI64(n: int) {
    -I64_MAX - 1 <= n <= I64_MAX
  }

  predicate CountsFit(c: Counts) {
    && c.due <= U32_MAX && c.eligible <= U32_MAX && c.paused <= U32_MAX && c.protectedPaused <= U32_MAX
    && c.completed <= U32_MAX && c.partial <= U32_MAX && c.skipped <= U32_MAX && c.pending <= U32_MAX
    && c.missedPolicySkips <= U32_MAX
  }

  predicate QuantitiesFit(quantities: map<string, int>) {
    forall unit :: unit in quantities ==> -0x8000_0000_0000_0000 <= quantities[unit] <= 0x7FFF_FFFF_FFFF_FFFF
  }

  /** Every number fits the integer type that stores it. */
  predicate Fits(t: Tally) {
    && CountsFit(t.counts) && t.partialProgress <= U32_MAX
    && t.adherenceSum <= U64_MAX && t.actualSeconds <= U64_MAX
    && QuantitiesFit(t.quantities)
  }

  lemma QuantityStepFits(quantities: map<string, int>, q: Option<Quantity>)
    requires QuantitiesFit(quantities)
    ensures QuantitiesFit(AddQuantity(quantities, q)) <==>
      (q.Some? ==> InI64(QuantityIn(quantities, q.value.unit) + q.value.amount))
  {
    if q.Some? {
      assert q.value.unit in AddQuantity(quantities, q);
    }
  }

  /** The mutable tally that the projection keeps for the range and for every bucket. */
  class MutableTally {
    var counts: Counts
    var adherenceSum: nat
    var actualSecondsTotal: nat
    var quantityTotals: map<string, int>
    var partialProgressCount: nat

    function View(): Tally
      reads this
    {
      Tally(counts, adherenceSum, actualSecondsTotal, quantityTotals, partialProgressCount)
    }

    constructor ()
      ensures View() == EMPTY
    {
      counts, adherenceSum, actualSecondsTotal, quantityTotals, partialProgressCount := NO_COUNTS, 0, 0, map[], 0;
    }

    /** Elapsed time and quantities count for every due occurrence. */
    method ObserveEvidence(v: Value) returns (ok: bool)
      requires QuantitiesFit(quantityTotals)
      modifies this`actualSecondsTotal, this`quantityTotals
      ensures ok <==> actualSecondsTotal <= U64_MAX && QuantitiesFit(AddQuantity(old(quantityTotals), v.quantity))
      ensures actualSecondsTotal == old(actualSecondsTotal) + SecondsOf(v)
      ensures ok ==> quantityTotals == AddQuantity(old(quantityTotals), v.quantity)
    {
      actualSecondsTotal := actualSecondsTotal + SecondsOf(v);
      QuantityStepFits(quantityTotals, v.quantity);
      if actualSecondsTotal > U64_MAX {
        return false;
      }
      if v.quantity.Some? {
        var sum := QuantityIn(quantityTotals, v.quantity.value.unit) + v.quantity.value.amount;
        if !InI64(sum) {
          return false;
        }
        quantityTotals := quantityTotals[v.quantity.value.unit := sum];
      }
      return true;
    }

    /** Adds one to the counter of the outcome, and for a policy skip to its own counter too. */
    method CountOne(outcome: Outcome) returns (ok: bool)
      requires CountsFit(counts)
      modifies this`counts
      ensures ok <==> CountsFit(CountOutcome(old(counts), outcome))
      ensures ok ==> counts == CountOutcome(old(counts), outcome)
    {
      match outcome
      case Pending =>
        counts := counts.(pending := counts.pending + 1);
        return counts.pending <= U32_MAX;
      case Partial =>
        counts := counts.(partial := counts.partial + 1);
        return counts.partial <= U32_MAX;
      case Completed =>
        counts := counts.(completed := counts.completed + 1);
        return counts.completed <= U32_MAX;
      case Skipped(reason) =>
        counts := counts.(skipped := counts.skipped + 1);
        if counts.skipped > U32_MAX {
          return false;
        }
        if reason.MissedPolicy? {
          counts := counts.(missedPolicySkips := counts.missedPolicySkips + 1);
        }
        return counts.missedPolicySkips <= U32_MAX;
    }

    /** Outcome and progress count only where the occurrence is not protected by a pause. Stopping
        at the first counter that overflows is the same as asking whether the whole tally fits. */
    method ObserveOutcome(v: Value) returns (ok: bool)
      requires Fits(View())
      modifies this`counts, this`partialProgressCount, this`adherenceSum
      ensures ok <==> Fits(OutcomeObserved(old(View()), v))
      ensures ok ==> View() == OutcomeObserved(old(View()), v)
    {
      counts := counts.(eligible := counts.eligible + 1);
      if counts.eligible > U32_MAX {
        return false;
      }
      ok := CountOne(v.outcome);
      if !ok {
        return;
      }
      if HasSomeProgress(v) {
        partialProgressCount := partialProgressCount + 1;
        if partialProgressCount > U32_MAX {
          return false;
        }
      }
      adherenceSum := adherenceSum + v.progress;
      return adherenceSum <= U64_MAX;
    }

    /** Fails exactly when some number no longer fits; otherwise the view is the observed tally. */
    method Observe(o: Observation) returns (ok: bool)
      requires Fits(View())
      modifies this
      ensures ok <==> Fits(Observed(old(View()), o))
      ensures ok ==> View() == Observed(old(View()), o)
    {
      counts := counts.(due := counts.due + 1);
      if counts.due > U32_MAX {
        return false;
      }
      ok := ObserveEvidence(o.value);
      if !ok {
        return;
      }
      if !o.eligibility.Eligible? {
        counts := counts.(paused := counts.paused + 1);
        if counts.paused > U32_MAX {
          return false;
        }
      }
      if o.eligibility.PausedProtected? {
        counts := counts.(protectedPaused := counts.protectedPaused + 1);
        return counts.protectedPaused <= U32_MAX;
      }
      ok := ObserveOutcome(o.value);
    }
  }

  // ---- No tally of validated input can overflow ----

  predicate GoodValue(v: Value) {
    && v.progress <= BASIS_POINTS_SCALE && SecondsOf(v) <= MAX_ACTUAL_SECONDS
    && (v.quantity.Some? ==> -MAX_QUANTITY <= v.quantity.value.amount <= MAX_QUANTITY)
  }

  lemma ValidatedIsGood(v: Value, at: Instant)
    requires ValueError(v, at).None?
    ensures GoodValue(v)
  {
  }

  ghost predicate AllGood(s: seq<Observation>) {
    forall i :: 0 <= i < |s| ==> GoodValue(s[i].value)
  }

  /** Due splits into eligible and protected, eligible splits by outcome. */
  ghost predicate CountsBalance(c: Counts, partialProgress: nat) {
    && c.due == c.eligible + c.protectedPaused && c.paused <= c.due
    && c.eligible == c.completed + c.partial + c.skipped + c.pending
    && c.missedPolicySkips <= c.skipped && partialProgress <= c.eligible
  }

  ghost predicate QuantitiesWithin(quantities: map<string, int>, n: nat) {
    forall unit :: unit in quantities ==> -(n * MAX_QUANTITY) <= quantities[unit] <= n * MAX_QUANTITY
  }

  /** Each number of a tally of `n` observations is at most `n` times its largest contribution. */
  ghost predicate Within(t: Tally, n: nat) {
    && t.counts.due == n && CountsBalance(t.counts, t.partialProgress)
    && t.adherenceSum <= t.counts.eligible * BASIS_POINTS_SCALE
    && t.actualSeconds <= n * MAX_ACTUAL_SECONDS
    && QuantitiesWithin(t.quantities, n)
  }

  lemma CountsBalanceStep(t: Tally, o: Observation)
    requires CountsBalance(t.counts, t.partialProgress)
    ensures var after := Observed(t, o);
      && CountsBalance(after.counts, after.partialProgress) && after.counts.due == t.counts.due + 1
      && (if o.eligibility.PausedProtected? then after.counts.eligible == t.counts.eligible && after.adherenceSum == t.adherenceSum
          else after.counts.eligible == t.counts.eligible + 1 && after.adherenceSum == t.adherenceSum + o.value.progress)
      && after.actualSeconds == t.actualSeconds + SecondsOf(o.value)
      && after.quantities == AddQuantity(t.quantities, o.value.quantity)
  {
  }

  lemma OneMore(total: nat, n: nat, share: nat, most: nat)
    requires total <= n * most && share <= most
    ensures total + share <= (n + 1) * most
  {
    assert (n + 1) * most == n * most + most;
  }

  lemma QuantitiesWithinStep(quantities: map<string, int>, n: nat, q: Option<Quantity>)
    requires QuantitiesWithin(quantities, n)
    requires q.Some? ==> -MAX_QUANTITY <= q.value.amount <= MAX_QUANTITY
    ensures QuantitiesWithin(AddQuantity(quantities, q), n + 1)
  {
  }

  lemma WithinStep(t: Tally, n: nat, o: Observation)
    requires Within(t, n) && GoodValue(o.value)
    ensures Within(Observed(t, o), n + 1)
  {
    CountsBalanceStep(t, o);
    OneMore(t.adherenceSum, t.counts.eligible, o.value.progress, BASIS_POINTS_SCALE);
    OneMore(t.actualSeconds, n, SecondsOf(o.value), MAX_ACTUAL_SECONDS);
    QuantitiesWithinStep(t.quantities, n, o.value.quantity);
  }

  lemma {:induction false} TallyWithin(s: seq<Observation>)
    requires AllGood(s)
    ensures Within(TallyOf(s), |s|)
  {
    if s != [] {
      TallyWithin(s[..|s| - 1]);
      WithinStep(TallyOf(s[..|s| - 1]), |s| - 1, s[|s| - 1]);
    }
  }

  lemma WithinFits(t: Tally, n: nat)
    requires Within(t, n) && n <= MAX_OCCURRENCES
    ensures Fits(t)
  {
    assert QuantitiesFit(t.quantities);
  }

  /** Tallies of validated input balance and never overflow: due splits into eligible and
      protected, eligible splits by outcome. */
  lemma TalliesBalance(s: seq<Observation>)
    requires AllGood(s) && |s| <= MAX_OCCURRENCES
    ensures var t := TallyOf(s);
      && Fits(t)
      && t.counts.due == |s| == t.counts.eligible + t.counts.protectedPaused
      && t.counts.eligible == t.counts.completed + t.counts.partial + t.counts.skipped + t.counts.pending
      && t.adherenceSum <= t.counts.eligible * BASIS_POINTS_SCALE
  {
    TallyWithin(s);
    WithinFits(TallyOf(s), |s|);
  }

  // ---- Adherence ----

  const U16_MAX := 0xFFFF

  datatype Overflow = Overflow

  /** The mean of `n` numbers with the given sum, rounded half upwards, in checked arithmetic. */
  function CheckedMean(sum: nat, n: nat): Result<Option<nat>, Overflow> {
    if n == 0 then Ok(None)
    else if sum + n / 2 > U64_MAX then Err(Overflow)
    else if (sum + n / 2) / n > U16_MAX then Err(Overflow)
    else Ok(Some((sum + n / 2) / n))
  }

  /** The checked mean fails exactly when the rounding sum needs more than 64 bits or the mean more than 16. */
  lemma MeanOverflowsIff(sum: nat, n: nat)
    ensures CheckedMean(sum, n).Err? <==>
      n > 0 && (sum + n / 2 >= 0x1_0000_0000_0000_0000 || sum + n / 2 >= 0x1_0000 * n)
  {
    if n > 0 {
      QuotientBound(sum + n / 2, n, 0x1_0000);
    }
  }

  lemma QuotientBound(a: nat, n: nat, bound: nat)
    requires n > 0
    ensures a / n >= bound <==> a >= bound * n
  {
    var q, r := a / n, a % n;
    assert a == q * n + r;
    if q >= bound {
      MulMonotone(bound, q, n);
    } else {
      MulMonotone(q + 1, bound, n);
      assert (q + 1) * n == q * n + n;
    }
  }

  /** `adherence_basis_points`: the mean progress of the eligible occurrences. */
  function Adherence(t: Tally): Result<Option<nat>, Overflow> {
    CheckedMean(t.adherenceSum, t.counts.eligible)
  }

  /** At most one hundred percent, and within half a basis point of the exact mean; a tie goes up. */
  ghost predicate IsMean(mean: Option<nat>, sum: nat, n: nat) {
    && (mean.None? <==> n == 0)
    && (mean.Some? ==> mean.value <= BASIS_POINTS_SCALE && 2 * sum - n < 2 * (mean.value * n) <= 2 * sum + n)
  }

  lemma RoundedMean(sum: nat, n: nat)
    requires n > 0
    ensures var q := (sum + n / 2) / n; 2 * sum - n < 2 * (q * n) <= 2 * sum + n
  {
    var q := (sum + n / 2) / n;
    var r := (sum + n / 2) % n;
    assert sum + n / 2 == q * n + r;
  }

  lemma MeanAtMost(sum: nat, n: nat, bound: nat)
    requires n > 0 && sum <= n * bound
    ensures (sum + n / 2) / n <= bound
  {
    var q := (sum + n / 2) / n;
    assert (bound + 1) * n == n * bound + n;
    assert q * n <= sum + n / 2;
    if q > bound {
      MulMonotone(bound + 1, q, n);
    }
  }

  lemma MulMonotone(a: nat, b: nat, n: nat)
    requires a <= b
    ensures a * n <= b * n
  {
  }

  /** No step of the mean overflows for as many occurrences as validation admits. */
  lemma CheckedMeanIsMean(sum: nat, n: nat)
    requires sum <= n * BASIS_POINTS_SCALE && n <= MAX_OCCURRENCES
    ensures CheckedMean(sum, n).Ok? && IsMean(CheckedMean(sum, n).value, sum, n)
  {
    if n > 0 {
      RoundedMean(sum, n);
      MeanAtMost(sum, n, BASIS_POINTS_SCALE);
    }
  }

  /** The adherence of validated occurrences exists: neither the 64-bit addition nor the 16-bit
      conversion overflows. It is their mean to within half a basis point. */
  lemma AdherenceIsMean(s: seq<Observation>)
    requires AllGood(s) && |s| <= MAX_OCCURRENCES
    ensures var t := TallyOf(s);
      Adherence(t).Ok? && IsMean(Adherence(t).value, t.adherenceSum, t.counts.eligible)
  {
    TalliesBalance(s);
    CheckedMeanIsMean(TallyOf(s).adherenceSum, TallyOf(s).counts.eligible);
  }

  // ---- Totals are sums of shares, whatever the order; buckets conserve them ----

  /** Everything a tally adds up. */
  datatype Measure =
    | DueCount
    | EligibleCount
    | PausedCount
    | ProtectedCount
    | CompletedCount
    | PartialCount
    | SkippedCount
    | PendingCount
    | MissedSkipCount
    | PartialProgressCount
    | ProgressSum
    | SecondsTotal
    | QuantityTotal(unit: string)

  function Measured(t: Tally, m: Measure): int {
    match m
    case DueCount => t.counts.due
    case EligibleCount => t.counts.eligible
    case PausedCount => t.counts.paused
    case ProtectedCount => t.counts.protectedPaused
    case CompletedCount => t.counts.completed
    case PartialCount => t.counts.partial
    case SkippedCount => t.counts.skipped
    case PendingCount => t.counts.pending
    case MissedSkipCount => t.counts.missedPolicySkips
    case PartialProgressCount => t.partialProgress
    case ProgressSum => t.adherenceSum
    case SecondsTotal => t.actualSeconds
    case QuantityTotal(unit) => QuantityIn(t.quantities, unit)
  }

  function One(b: bool): int {
    if b then 1 else 0
  }

  /** What one occurrence contributes to a measure by itself. */
  function Share(o: Observation, m: Measure): int {
    var v := o.value;
    var counted := !o.eligibility.PausedProtected?;
    match m
    case DueCount => 1
    case EligibleCount => One(counted)
    case PausedCount => One(!o.eligibility.Eligible?)
    case ProtectedCount => One(!counted)
    case CompletedCount => One(counted && v.outcome.Completed?)
    case PartialCount => One(counted && v.outcome.Partial?)
    case SkippedCount => One(counted && v.outcome.Skipped?)
    case PendingCount => One(counted && v.outcome.Pending?)
    case MissedSkipCount => One(counted && v.outcome == Skipped(MissedPolicy))
    case PartialProgressCount => One(counted && HasSomeProgress(v))
    case ProgressSum => if counted then v.progress else 0
    case SecondsTotal => SecondsOf(v)
    case QuantityTotal(unit) => if v.quantity.Some? && v.quantity.value.unit == unit then v.quantity.value.amount else 0
  }

  lemma ObservedAdds(t: Tally, o: Observation, m: Measure)
    ensures Measured(Observed(t, o), m) == Measured(t, m) + Share(o, m)
  {
  }

  function ShareIn(m: Measure): Observation -> int {
    o => Share(o, m)
  }

  /** A tally measures the sum of what its occurrences contribute. */
  lemma {:induction false} TallyMeasures(s: seq<Observation>, m: Measure)
    ensures Measured(TallyOf(s), m) == SeqSum(s, ShareIn(m))
  {
    if s != [] {
      TallyMeasures(s[..|s| - 1], m);
      ObservedAdds(TallyOf(s[..|s| - 1]), s[|s| - 1], m);
    }
  }

  function FallsInto(start: Date, granularity: Granularity, weekStartsOn: DayOfWeek): Observation -> bool {
    (o: Observation) => BucketStart(o.date, granularity, weekStartsOn) == start
  }

  function Itself(): Observation -> Observation {
    (o: Observation) => o
  }

  /** The observations whose date falls into the bucket that begins at `start`. */
  ghost function InBucketOf(s: seq<Observation>, start: Date, granularity: Granularity, weekStartsOn: DayOfWeek): seq<Observation> {
    Chosen(s, FallsInto(start, granularity, weekStartsOn), Itself())
  }

  ghost function BucketSum(starts: seq<Date>, s: seq<Observation>, granularity: Granularity, weekStartsOn: DayOfWeek, m: Measure): int {
    if starts == [] then 0
    else
      var n := |starts| - 1;
      BucketSum(starts[..n], s, granularity, weekStartsOn, m) + Measured(TallyOf(InBucketOf(s, starts[n], granularity, weekStartsOn)), m)
  }

  lemma BucketMeasureStep(s: seq<Observation>, o: Observation, start: Date, granularity: Granularity, weekStartsOn: DayOfWeek, m: Measure)
    ensures Measured(TallyOf(InBucketOf(s + [o], start, granularity, weekStartsOn)), m) ==
            Measured(TallyOf(InBucketOf(s, start, granularity, weekStartsOn)), m)
            + if BucketStart(o.date, granularity, weekStartsOn) == start then Share(o, m) else 0
  {
    ChosenAppend(s, o, FallsInto(start, granularity, weekStartsOn), Itself());
    var earlier := InBucketOf(s, start, granularity, weekStartsOn);
    if BucketStart(o.date, granularity, weekStartsOn) == start {
      assert (earlier + [o])[..|earlier|] == earlier;
      ObservedAdds(TallyOf(earlier), o, m);
    }
  }

  lemma {:induction false} BucketSumStep(starts: seq<Date>, s: seq<Observation>, o: Observation, granularity: Granularity, weekStartsOn: DayOfWeek, m: Measure)
    requires Distinct(starts)
    ensures BucketSum(starts, s + [o], granularity, weekStartsOn, m) ==
            BucketSum(starts, s, granularity, weekStartsOn, m)
            + if BucketStart(o.date, granularity, weekStartsOn) in starts then Share(o, m) else 0
  {
    if starts != [] {
      var n := |starts| - 1;
      BucketSumStep(starts[..n], s, o, granularity, weekStartsOn, m);
      BucketMeasureStep(s, o, starts[n], granularity, weekStartsOn, m);
    }
  }

  lemma {:induction false} EmptyBucketSum(starts: seq<Date>, granularity: Granularity, weekStartsOn: DayOfWeek, m: Measure)
    ensures BucketSum(starts, [], granularity, weekStartsOn, m) == 0
  {
    if starts != [] {
      EmptyBucketSum(starts[..|starts| - 1], granularity, weekStartsOn, m);
    }
  }

  /** Summed over all buckets, every count, second and quantity equals the total. */
  lemma {:induction false} BucketsConserve(starts: seq<Date>, s: seq<Observation>, granularity: Granularity, weekStartsOn: DayOfWeek, m: Measure)
    requires Distinct(starts)
    requires forall i :: 0 <= i < |s| ==> BucketStart(s[i].date, granularity, weekStartsOn) in starts
    ensures BucketSum(starts, s, granularity, weekStartsOn, m) == Measured(TallyOf(s), m)
    decreases |s|
  {
    if s == [] {
      EmptyBucketSum(starts, granularity, weekStartsOn, m);
    } else {
      var n := |s| - 1;
      assert s == s[..n] + [s[n]];
      BucketsConserve(starts, s[..n], granularity, weekStartsOn, m);
      BucketSumStep(starts, s[..n], s[n], granularity, weekStartsOn, m);
      ObservedAdds(TallyOf(s[..n]), s[n], m);
    }
  }

  // ---- Streaks ----

  ghost predicate AllTrue(flags: seq<bool>, i: int, j: int)
    requires 0 <= i <= j <= |flags|
  {
    forall k :: i <= k < j ==> flags[k]
  }

  /** The length of the successful suffix, and the greatest length of any successful run. */
  ghost predicate StreakLengths(flags: seq<bool>, current: nat, longest: nat) {
    && current <= longest <= |flags|
    && AllTrue(flags, |flags| - current, |flags|)
    && (current < |flags| ==> !flags[|flags| - current - 1])
    && (exists i, j :: 0 <= i <= j <= |flags| && AllTrue(flags, i, j) && j - i == longest)
    && (forall i, j :: 0 <= i <= j <= |flags| && AllTrue(flags, i, j) ==> j - i <= longest)
  }

  ghost predicate StreakBeyond(flags: seq<bool>, bound: nat) {
    exists i, j :: 0 <= i <= j <= |flags| && AllTrue(flags, i, j) && j - i > bound
  }

  lemma LongestExtends(flags: seq<bool>, n: nat, current: nat, longest: nat)
    requires n < |flags| && current <= n + 1 && current <= longest
    requires current < n + 1 ==> !flags[n - current]
    requires forall i, j :: 0 <= i <= j <= n && AllTrue(flags, i, j) ==> j - i <= longest
    ensures forall i, j :: 0 <= i <= j <= n + 1 && AllTrue(flags, i, j) ==> j - i <= longest
  {
    assert current < n + 1 ==> !flags[n - current];
    forall i, j | 0 <= i <= j <= n + 1 && AllTrue(flags, i, j) ensures j - i <= longest {
      if j == n + 1 {
        assert i >= n + 1 - current;
      }
    }
  }

  /** `streaks`: a 32-bit count that fails exactly when some successful run is longer than that. */
  method Streaks(flags: seq<bool>) returns (r: Result<(nat, nat), Overflow>)
    ensures r.Err? <==> StreakBeyond(flags, U32_MAX)
    ensures r.Ok? ==> StreakLengths(flags, r.value.0, r.value.1)
  {
    var current, longest := 0, 0;
    ghost var best := 0;
    for n := 0 to |flags|
      invariant current <= longest <= n && longest <= U32_MAX
      invariant AllTrue(flags, n - current, n) && (current < n ==> !flags[n - current - 1])
      invariant 0 <= best <= n - longest && AllTrue(flags, best, best + longest)
      invariant forall i, j :: 0 <= i <= j <= n && AllTrue(flags, i, j) ==> j - i <= longest
    {
      if flags[n] {
        current := current + 1;
        if current > U32_MAX {
          assert AllTrue(flags, n + 1 - current, n + 1);
          return Err(Overflow);
        }
        if current > longest {
          longest := current;
          best := n + 1 - current;
        }
      } else {
        current := 0;
      }
      LongestExtends(flags, n, current, longest);
    }
    assert AllTrue(flags, best, best + longest);
    return Ok((current, longest));
  }
}
