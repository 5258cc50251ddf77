/** Calendar trend buckets: they tile the date range without gaps or overlaps. */
module HabitTrends {
  import opened Base
  import opened Calendar

  datatype Granularity = Day | Week | Month

  /** `calendar_bucket_start`. */
  function BucketStart(date: Date, granularity: Granularity, weekStartsOn: DayOfWeek): Date
    requires date.Valid()
  {
    match granularity
    case Day => date
    case Week =>
      var offset := (WeekdayIndex(Weekday(date)) + 7 - WeekdayIndex(weekStartsOn)) % 7;
      MinusDays(date, offset)
    case Month => date.(day := 1)
  }

  /** `next_bucket_start`. */
  function NextBucket(start: Date, granularity: Granularity): Date {
    match granularity
    case Day => NextDay(start)
    case Week => PlusDays(start, 7)
    case Month => if start.month == 12 then Date(start.year + 1, 1, 1) else Date(start.year, start.month + 1, 1)
  }

  /** `start` begins a bucket. */
  predicate Aligned(start: Date, granularity: Granularity, weekStartsOn: DayOfWeek) {
    start.Valid() && match granularity
      case Day => true
      case Week => DayNumber(start) % 7 == WeekdayIndex(weekStartsOn)
      case Month => start.day == 1
  }

  /** `date` lies in the bucket that begins at `start`. */
  predicate InBucket(date: Date, start: Date, granularity: Granularity)
    requires date.Valid() && start.Valid() && NextBucket(start, granularity).Valid()
  {
    DayNumber(start) <= DayNumber(date) < DayNumber(NextBucket(start, granularity))
  }

  lemma WeekLater(n: int)
    ensures (n + 7) % 7 == n % 7
  {
  }

  lemma NextMonthLater(start: Date)
    requires start.Valid() && start.day == 1
    ensures NextBucket(start, Month).Valid() && NextBucket(start, Month).day == 1
    ensures DayNumber(start) < DayNumber(NextBucket(start, Month))
  {
    BeforeCounts(start, NextBucket(start, Month));
  }

  lemma NextBucketAligned(start: Date, granularity: Granularity, weekStartsOn: DayOfWeek)
    requires Aligned(start, granularity, weekStartsOn)
    ensures Aligned(NextBucket(start, granularity), granularity, weekStartsOn)
    ensures DayNumber(start) < DayNumber(NextBucket(start, granularity))
  {
    match granularity
    case Day => NextDayCounts(start);
    case Week =>
      PlusDaysCounts(start, 7);
      WeekLater(DayNumber(start));
    case Month => NextMonthLater(start);
  }

  lemma WeekOffset(n: int, first: int)
    requires 0 <= first < 7
    ensures var offset := (n % 7 + 7 - first) % 7; 0 <= offset < 7 && (n - offset) % 7 == first
  {
  }

  lemma WeekContains(date: Date, weekStartsOn: DayOfWeek)
    requires date.Valid()
    ensures Aligned(BucketStart(date, Week, weekStartsOn), Week, weekStartsOn)
    ensures NextBucket(BucketStart(date, Week, weekStartsOn), Week).Valid()
    ensures InBucket(date, BucketStart(date, Week, weekStartsOn), Week)
  {
    var offset := (WeekdayIndex(Weekday(date)) + 7 - WeekdayIndex(weekStartsOn)) % 7;
    WeekOffset(DayNumber(date), WeekdayIndex(weekStartsOn));
    MinusDaysCounts(date, offset);
    PlusDaysCounts(MinusDays(date, offset), 7);
  }

  lemma MonthContains(date: Date)
    requires date.Valid()
    ensures date.(day := 1).Valid() && NextBucket(date.(day := 1), Month).Valid()
    ensures InBucket(date, date.(day := 1), Month)
  {
    var start := date.(day := 1);
    NextMonthLater(start);
    BeforeCounts(date, NextBucket(start, Month));
    DayNumberOrder(start, date);
  }

  /** Every date lies in its own bucket. */
  lemma BucketStartContains(date: Date, granularity: Granularity, weekStartsOn: DayOfWeek)
    requires date.Valid()
    ensures Aligned(BucketStart(date, granularity, weekStartsOn), granularity, weekStartsOn)
    ensures NextBucket(BucketStart(date, granularity, weekStartsOn), granularity).Valid()
    ensures InBucket(date, BucketStart(date, granularity, weekStartsOn), granularity)
  {
    match granularity
    case Day => NextDayCounts(date);
    case Week => WeekContains(date, weekStartsOn);
    case Month => MonthContains(date);
  }

  lemma SameWeek(c: int, n: int, first: int)
    requires c <= n < c + 7 && c % 7 == first
    ensures (n % 7 + 7 - first) % 7 == n - c
  {
  }

  lemma DayUnique(date: Date, start: Date)
    requires date.Valid() && start.Valid() && NextBucket(start, Day).Valid() && InBucket(date, start, Day)
    ensures date == start
  {
    NextDayCounts(start);
    DayNumberOrder(start, date);
  }

  lemma WeekUnique(date: Date, start: Date, weekStartsOn: DayOfWeek)
    requires date.Valid() && Aligned(start, Week, weekStartsOn) && NextBucket(start, Week).Valid() && InBucket(date, start, Week)
    ensures BucketStart(date, Week, weekStartsOn) == start
  {
    PlusDaysCounts(start, 7);
    SameWeek(DayNumber(start), DayNumber(date), WeekdayIndex(weekStartsOn));
    MinusDaysCounts(date, DayNumber(date) - DayNumber(start));
    DayNumberOrder(BucketStart(date, Week, weekStartsOn), start);
  }

  lemma MonthUnique(date: Date, start: Date)
    requires date.Valid() && start.Valid() && start.day == 1 && NextBucket(start, Month).Valid() && InBucket(date, start, Month)
    ensures date.(day := 1) == start
  {
    DayNumberOrder(date, start);
    DayNumberOrder(date, NextBucket(start, Month));
  }

  /** The bucket of a date is determined: any aligned bucket around it is the one computed. */
  lemma BucketUnique(date: Date, start: Date, granularity: Granularity, weekStartsOn: DayOfWeek)
    requires date.Valid() && Aligned(start, granularity, weekStartsOn) && NextBucket(start, granularity).Valid()
    requires InBucket(date, start, granularity)
    ensures BucketStart(date, granularity, weekStartsOn) == start
  {
    match granularity
    case Day => DayUnique(date, start);
    case Week => WeekUnique(date, start, weekStartsOn);
    case Month => MonthUnique(date, start);
  }

  /** From an aligned start that is not the last, the next bucket does not pass the last. */
  lemma NeverOvershoots(start: Date, last: Date, granularity: Granularity, weekStartsOn: DayOfWeek)
    requires Aligned(start, granularity, weekStartsOn) && Aligned(last, granularity, weekStartsOn)
    requires DayNumber(start) < DayNumber(last)
    ensures NextBucket(start, granularity).Valid() && DayNumber(NextBucket(start, granularity)) <= DayNumber(last)
  {
    NextBucketAligned(start, granularity, weekStartsOn);
    if DayNumber(last) < DayNumber(NextBucket(start, granularity)) {
      BucketUnique(last, start, granularity, weekStartsOn);
      NextBucketAligned(last, granularity, weekStartsOn);
      BucketUnique(last, last, granularity, weekStartsOn);
    }
  }

  lemma BucketStartMonotone(a: Date, b: Date, granularity: Granularity, weekStartsOn: DayOfWeek)
    requires a.Valid() && b.Valid() && DayNumber(a) <= DayNumber(b)
    ensures BucketStart(a, granularity, weekStartsOn).Valid() && BucketStart(b, granularity, weekStartsOn).Valid()
    ensures DayNumber(BucketStart(a, granularity, weekStartsOn)) <= DayNumber(BucketStart(b, granularity, weekStartsOn))
  {
    BucketStartContains(a, granularity, weekStartsOn);
    BucketStartContains(b, granularity, weekStartsOn);
    var sa, sb := BucketStart(a, granularity, weekStartsOn), BucketStart(b, granularity, weekStartsOn);
    if DayNumber(sb) < DayNumber(sa) {
      NeverOvershoots(sb, sa, granularity, weekStartsOn);
    }
  }

  ghost predicate Consecutive(starts: seq<Date>, granularity: Granularity, i: nat)
    requires i + 1 < |starts|
  {
    starts[i + 1] == NextBucket(starts[i], granularity)
  }

  /** Aligned buckets, each beginning where the one before it ends. */
  ghost predicate Tiles(starts: seq<Date>, granularity: Granularity, weekStartsOn: DayOfWeek) {
    && (forall i :: 0 <= i < |starts| ==> Aligned(starts[i], granularity, weekStartsOn))
    && (forall i {:trigger Consecutive(starts, granularity, i)} :: 0 <= i && i + 1 < |starts| ==> Consecutive(starts, granularity, i))
  }

  lemma TilesAppend(starts: seq<Date>, granularity: Granularity, weekStartsOn: DayOfWeek)
    requires starts != [] && Tiles(starts, granularity, weekStartsOn)
    ensures Tiles(starts + [NextBucket(starts[|starts| - 1], granularity)], granularity, weekStartsOn)
  {
    var cursor := starts[|starts| - 1];
    NextBucketAligned(cursor, granularity, weekStartsOn);
    var after := starts + [NextBucket(cursor, granularity)];
    forall i | 0 <= i && i + 1 < |after| ensures Consecutive(after, granularity, i) {
      if i + 1 < |starts| {
        assert Consecutive(starts, granularity, i);
      }
    }
  }

  lemma {:induction false} TilesAscend(starts: seq<Date>, granularity: Granularity, weekStartsOn: DayOfWeek, i: nat, j: nat)
    requires Tiles(starts, granularity, weekStartsOn) && i < j < |starts|
    ensures NextBucket(starts[i], granularity).Valid() && starts[j].Valid() && starts[i].Valid()
    ensures DayNumber(starts[i]) < DayNumber(NextBucket(starts[i], granularity)) <= DayNumber(starts[j])
    decreases j - i
  {
    assert Consecutive(starts, granularity, j - 1);
    NextBucketAligned(starts[i], granularity, weekStartsOn);
    if i + 1 < j {
      TilesAscend(starts, granularity, weekStartsOn, i, j - 1);
      NextBucketAligned(starts[j - 1], granularity, weekStartsOn);
    }
  }

  /** `empty_trend_buckets`: the overshoot error is unreachable, and the buckets tile the range. */
  method EmptyTrendBuckets(rangeStart: Date, rangeEnd: Date, granularity: Granularity, weekStartsOn: DayOfWeek) returns (starts: seq<Date>)
    requires rangeStart.Valid() && rangeEnd.Valid() && DayNumber(rangeStart) <= DayNumber(rangeEnd)
    ensures starts != [] && Tiles(starts, granularity, weekStartsOn)
    ensures starts[0] == BucketStart(rangeStart, granularity, weekStartsOn)
    ensures starts[|starts| - 1] == BucketStart(rangeEnd, granularity, weekStartsOn)
  {
    BucketStartContains(rangeStart, granularity, weekStartsOn);
    BucketStartContains(rangeEnd, granularity, weekStartsOn);
    BucketStartMonotone(rangeStart, rangeEnd, granularity, weekStartsOn);
    var first := BucketStart(rangeStart, granularity, weekStartsOn);
    var last := BucketStart(rangeEnd, granularity, weekStartsOn);
    var cursor := first;
    starts := [cursor];
    while cursor != last
      invariant starts != [] && starts[0] == first && starts[|starts| - 1] == cursor
      invariant Tiles(starts, granularity, weekStartsOn)
      invariant cursor.Valid() && DayNumber(cursor) <= DayNumber(last)
      decreases DayNumber(last) - DayNumber(cursor)
    {
      DayNumberOrder(cursor, last);
      NeverOvershoots(cursor, last, granularity, weekStartsOn);
      NextBucketAligned(cursor, granularity, weekStartsOn);
      TilesAppend(starts, granularity, weekStartsOn);
      cursor := NextBucket(cursor, granularity);
      starts := starts + [cursor];
    }
  }

  /** Every date of the range falls into exactly one bucket, the one that begins at its own
      bucket start. */
  lemma ExactlyOneBucket(starts: seq<Date>, rangeStart: Date, rangeEnd: Date, granularity: Granularity, weekStartsOn: DayOfWeek, date: Date)
    requires rangeStart.Valid() && rangeEnd.Valid() && date.Valid()
    requires DayNumber(rangeStart) <= DayNumber(date) <= DayNumber(rangeEnd)
    requires starts != [] && Tiles(starts, granularity, weekStartsOn)
    requires starts[0] == BucketStart(rangeStart, granularity, weekStartsOn)
    requires starts[|starts| - 1] == BucketStart(rangeEnd, granularity, weekStartsOn)
    ensures exists i :: 0 <= i < |starts| && starts[i] == BucketStart(date, granularity, weekStartsOn)
    ensures forall i :: 0 <= i < |starts| ==>
      && NextBucket(starts[i], granularity).Valid()
      && (InBucket(date, starts[i], granularity) <==> starts[i] == BucketStart(date, granularity, weekStartsOn))
    ensures Distinct(starts)
  {
    var own := BucketStart(date, granularity, weekStartsOn);
    BucketStartMonotone(rangeStart, date, granularity, weekStartsOn);
    BucketStartMonotone(date, rangeEnd, granularity, weekStartsOn);
    BucketStartContains(date, granularity, weekStartsOn);
    var i := BucketIndex(starts, granularity, weekStartsOn, own, |starts| - 1);
    forall k | 0 <= k < |starts|
      ensures NextBucket(starts[k], granularity).Valid()
      ensures InBucket(date, starts[k], granularity) <==> starts[k] == own
    {
      NextBucketAligned(starts[k], granularity, weekStartsOn);
      if InBucket(date, starts[k], granularity) {
        BucketUnique(date, starts[k], granularity, weekStartsOn);
      }
    }
    forall k, l | 0 <= k < l < |starts| ensures starts[k] != starts[l] {
      TilesAscend(starts, granularity, weekStartsOn, k, l);
    }
  }

  lemma {:induction false} BucketIndex(starts: seq<Date>, granularity: Granularity, weekStartsOn: DayOfWeek, own: Date, n: nat) returns (i: nat)
    requires n < |starts| && Tiles(starts, granularity, weekStartsOn) && Aligned(own, granularity, weekStartsOn)
    requires DayNumber(starts[0]) <= DayNumber(own) <= DayNumber(starts[n])
    ensures i <= n && starts[i] == own
  {
    DayNumberOrder(own, starts[n]);
    if own == starts[n] {
      i := n;
    } else {
      assert Consecutive(starts, granularity, n - 1);
      if DayNumber(starts[n - 1]) < DayNumber(own) {
        NeverOvershoots(starts[n - 1], own, granularity, weekStartsOn);
      }
      i := BucketIndex(starts, granularity, weekStartsOn, own, n - 1);
    }
  }
}
