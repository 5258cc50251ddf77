/** Which due occurrences a pause touches: the naive check of every pause, and the sorted,
    merged, single-cursor sweep that analytics uses instead. */
module HabitPauses {
  import opened Base
  import opened HabitRecords
  import opened Sorting
  import opened Calendar

  datatype Eligibility = Eligible | PausedProtected | PausedUnprotected

  function EligibilityOf(overlaps: bool, preserves: bool): Eligibility {
    if !overlaps then Eligible else if preserves then PausedProtected else PausedUnprotected
  }

  /** `habit_occurrence_eligibility`: tests the window against every pause. */
  function NaiveEligibility(windowStart: Instant, windowEnd: Instant, pauses: seq<Pause>, preserves: bool): Result<Eligibility, PolicyError> {
    if windowStart >= windowEnd then Err(InvalidOccurrenceWindow)
    else if exists i :: 0 <= i < |pauses| && !pauses[i].Valid() then Err(InvalidPauseInterval)
    else Ok(EligibilityOf(SomePauseOverlaps(pauses, windowStart, windowEnd), preserves))
  }

  ghost predicate PausedDuring(pauses: seq<Pause>, windowStart: Instant, windowEnd: Instant) {
    exists i, t {:trigger InPauseAt(pauses[i], t)} :: 0 <= i < |pauses| && InPauseAt(pauses[i], t) && windowStart <= t < windowEnd
  }

  lemma PausedDuringIff(pauses: seq<Pause>, windowStart: Instant, windowEnd: Instant)
    requires AllValid(pauses) && windowStart < windowEnd
    ensures SomePauseOverlaps(pauses, windowStart, windowEnd) <==> PausedDuring(pauses, windowStart, windowEnd)
  {
    forall i | 0 <= i < |pauses|
      ensures pauses[i].Overlaps(windowStart, windowEnd) <==> exists t :: InPauseAt(pauses[i], t) && windowStart <= t < windowEnd
    {
      OverlapsIff(pauses[i], windowStart, windowEnd);
    }
    if SomePauseOverlaps(pauses, windowStart, windowEnd) {
      var i :| 0 <= i < |pauses| && pauses[i].Overlaps(windowStart, windowEnd);
      var t :| InPauseAt(pauses[i], t) && windowStart <= t < windowEnd;
    }
  }

  /** An empty window and an empty pause are refused, in this order. Otherwise a window is paused
      exactly when some instant of it lies in a pause, and then protected exactly when pauses preserve
      statistics. */
  lemma NaiveEligibilityIff(windowStart: Instant, windowEnd: Instant, pauses: seq<Pause>, preserves: bool)
    ensures var r := NaiveEligibility(windowStart, windowEnd, pauses, preserves);
      && (windowEnd <= windowStart <==> r == Err(InvalidOccurrenceWindow))
      && (windowStart < windowEnd && !AllValid(pauses) <==> r == Err(InvalidPauseInterval))
      && (windowStart < windowEnd && AllValid(pauses) ==>
            r == Ok(if !PausedDuring(pauses, windowStart, windowEnd) then Eligible else if preserves then PausedProtected else PausedUnprotected))
  {
    if windowStart < windowEnd && AllValid(pauses) {
      PausedDuringIff(pauses, windowStart, windowEnd);
    }
  }

  // ---- Merging ----

  /** Ascending by start, then by end, where an open end sorts first. */
  predicate PauseOrder(a: Pause, b: Pause) {
    a.start < b.start || (a.start == b.start && (a.end.None? || (b.end.Some? && a.end.value <= b.end.value)))
  }

  lemma PauseOrderTotal()
    ensures TotalPreorder(PauseOrder)
  {
  }

  function LaterEnd(a: Option<Instant>, b: Option<Instant>): Option<Instant> {
    if a.None? || b.None? then None else if a.value >= b.value then a else b
  }

  predicate Touches(last: Pause, pause: Pause) {
    last.end.Some? ==> pause.start <= last.end.value
  }

  function Join(last: Pause, pause: Pause): Pause {
    last.(end := LaterEnd(last.end, pause.end))
  }

  /** Joining two touching pauses covers exactly what either covered. */
  lemma JoinOverlaps(last: Pause, pause: Pause, windowStart: Instant, windowEnd: Instant)
    requires windowStart < windowEnd && last.start <= pause.start && Touches(last, pause)
    ensures Join(last, pause).Overlaps(windowStart, windowEnd) <==>
      last.Overlaps(windowStart, windowEnd) || pause.Overlaps(windowStart, windowEnd)
  {
  }

  /** Ends strictly before the next start; only the last pause may be open-ended. */
  ghost predicate Separated(merged: seq<Pause>) {
    && (forall i :: 0 <= i < |merged| ==> merged[i].Valid())
    && (forall i, j :: 0 <= i < j < |merged| ==> merged[i].end.Some? && merged[i].end.value < merged[j].start)
  }

  ghost predicate SameOverlap(a: seq<Pause>, b: seq<Pause>, windowStart: Instant, windowEnd: Instant) {
    SomePauseOverlaps(a, windowStart, windowEnd) <==> SomePauseOverlaps(b, windowStart, windowEnd)
  }

  /** `a` and `b` touch the same non-empty windows. */
  ghost predicate SameCover(a: seq<Pause>, b: seq<Pause>) {
    forall windowStart, windowEnd {:trigger SameOverlap(a, b, windowStart, windowEnd)} ::
      windowStart < windowEnd ==> SameOverlap(a, b, windowStart, windowEnd)
  }

  lemma OverlapsAppend(s: seq<Pause>, p: Pause, windowStart: Instant, windowEnd: Instant)
    ensures SomePauseOverlaps(s + [p], windowStart, windowEnd) <==>
      SomePauseOverlaps(s, windowStart, windowEnd) || p.Overlaps(windowStart, windowEnd)
  {
    if SomePauseOverlaps(s, windowStart, windowEnd) {
      var i :| 0 <= i < |s| && s[i].Overlaps(windowStart, windowEnd);
      assert (s + [p])[i] == s[i];
    }
    if p.Overlaps(windowStart, windowEnd) {
      assert (s + [p])[|s|] == p;
    }
  }

  /** One step of the merge: extend the last interval or start a new one. */
  function MergeOne(merged: seq<Pause>, pause: Pause): seq<Pause> {
    if merged == [] then [pause]
    else
      var n := |merged| - 1;
      if Touches(merged[n], pause) then merged[n := Join(merged[n], pause)] else merged + [pause]
  }

  lemma MergeOneOverlaps(merged: seq<Pause>, pause: Pause, windowStart: Instant, windowEnd: Instant)
    requires windowStart < windowEnd
    requires merged != [] ==> merged[|merged| - 1].start <= pause.start
    ensures SomePauseOverlaps(MergeOne(merged, pause), windowStart, windowEnd) <==>
      SomePauseOverlaps(merged, windowStart, windowEnd) || pause.Overlaps(windowStart, windowEnd)
  {
    if merged == [] {
      OverlapsAppend([], pause, windowStart, windowEnd);
      assert [] + [pause] == [pause];
    } else {
      var n := |merged| - 1;
      if Touches(merged[n], pause) {
        assert merged == merged[..n] + [merged[n]];
        assert MergeOne(merged, pause) == merged[..n] + [Join(merged[n], pause)];
        OverlapsAppend(merged[..n], merged[n], windowStart, windowEnd);
        OverlapsAppend(merged[..n], Join(merged[n], pause), windowStart, windowEnd);
        JoinOverlaps(merged[n], pause, windowStart, windowEnd);
      } else {
        OverlapsAppend(merged, pause, windowStart, windowEnd);
      }
    }
  }

  lemma MergeOneSeparated(merged: seq<Pause>, pause: Pause)
    requires Separated(merged) && pause.Valid()
    requires merged != [] ==> merged[|merged| - 1].start <= pause.start
    ensures Separated(MergeOne(merged, pause))
    ensures MergeOne(merged, pause) != [] && MergeOne(merged, pause)[|MergeOne(merged, pause)| - 1].start <= pause.start
  {
  }

  lemma MergeOneCovers(done: seq<Pause>, merged: seq<Pause>, pause: Pause)
    requires SameCover(merged, done)
    requires merged != [] ==> merged[|merged| - 1].start <= pause.start
    ensures SameCover(MergeOne(merged, pause), done + [pause])
  {
    forall windowStart, windowEnd | windowStart < windowEnd
      ensures SameOverlap(MergeOne(merged, pause), done + [pause], windowStart, windowEnd)
    {
      assert SameOverlap(merged, done, windowStart, windowEnd);
      MergeOneOverlaps(merged, pause, windowStart, windowEnd);
      OverlapsAppend(done, pause, windowStart, windowEnd);
    }
  }

  lemma SortedCovers(pauses: seq<Pause>)
    ensures SameCover(Sort(pauses, PauseOrder), pauses)
  {
    PauseOrderTotal();
    var sorted := Sort(pauses, PauseOrder);
    forall windowStart, windowEnd | windowStart < windowEnd ensures SameOverlap(sorted, pauses, windowStart, windowEnd) {
      if SomePauseOverlaps(sorted, windowStart, windowEnd) {
        var i :| 0 <= i < |sorted| && sorted[i].Overlaps(windowStart, windowEnd);
        SortElements(pauses, PauseOrder, sorted[i]);
        var j :| 0 <= j < |pauses| && pauses[j] == sorted[i];
      }
      if SomePauseOverlaps(pauses, windowStart, windowEnd) {
        var i :| 0 <= i < |pauses| && pauses[i].Overlaps(windowStart, windowEnd);
        SortElements(pauses, PauseOrder, pauses[i]);
        var j :| 0 <= j < |sorted| && sorted[j] == pauses[i];
      }
    }
  }

  ghost predicate AllValid(pauses: seq<Pause>) {
    forall i :: 0 <= i < |pauses| ==> pauses[i].Valid()
  }

  ghost predicate Ascending(s: seq<Pause>) {
    forall i, j :: 0 <= i < j < |s| ==> s[i].start <= s[j].start
  }

  lemma SortedPauses(pauses: seq<Pause>)
    requires AllValid(pauses)
    ensures AllValid(Sort(pauses, PauseOrder)) && Ascending(Sort(pauses, PauseOrder))
    ensures SameCover(Sort(pauses, PauseOrder), pauses)
  {
    PauseOrderTotal();
    SortSorts(pauses, PauseOrder);
    SortedCovers(pauses);
    var sorted := Sort(pauses, PauseOrder);
    forall i | 0 <= i < |sorted| ensures sorted[i].Valid() {
      SortElements(pauses, PauseOrder, sorted[i]);
    }
  }

  method MergeNext(before: seq<Pause>, pause: Pause, ghost done: seq<Pause>) returns (merged: seq<Pause>)
    requires Separated(before) && SameCover(before, done) && pause.Valid()
    requires before != [] ==> before[|before| - 1].start <= pause.start
    ensures Separated(merged) && SameCover(merged, done + [pause])
    ensures merged != [] ==> merged[|merged| - 1].start <= pause.start
  {
    MergeOneSeparated(before, pause);
    MergeOneCovers(done, before, pause);
    merged := MergeOne(before, pause);
  }

  /** `merged_pauses`: disjoint, separated intervals that touch exactly the same windows,
      including touching, nested and open-ended pauses. */
  method MergedPauses(pauses: seq<Pause>) returns (merged: seq<Pause>)
    requires AllValid(pauses)
    ensures Separated(merged) && SameCover(merged, pauses)
  {
    SortedPauses(pauses);
    var sorted := Sort(pauses, PauseOrder);
    merged := [];
    for k := 0 to |sorted|
      invariant Separated(merged) && SameCover(merged, sorted[..k])
      invariant merged != [] ==> k > 0 && merged[|merged| - 1].start <= sorted[k - 1].start
    {
      assert sorted[..k + 1] == sorted[..k] + [sorted[k]];
      merged := MergeNext(merged, sorted[k], sorted[..k]);
    }
    assert sorted[..|sorted|] == sorted;
    CoverTrans(merged, sorted, pauses);
  }

  lemma CoverTrans(a: seq<Pause>, b: seq<Pause>, c: seq<Pause>)
    requires SameCover(a, b) && SameCover(b, c)
    ensures SameCover(a, c)
  {
    forall windowStart, windowEnd | windowStart < windowEnd ensures SameOverlap(a, c, windowStart, windowEnd) {
      assert SameOverlap(a, b, windowStart, windowEnd) && SameOverlap(b, c, windowStart, windowEnd);
    }
  }

  // ---- The sweep ----

  /** One expected occurrence with its resolved local date and window. */
  datatype Occurrence = Occurrence(id: Id, localDate: CivilDate, windowStart: Instant, windowEnd: Instant, value: Value)

  predicate WindowOrder(a: Occurrence, b: Occurrence) {
    || a.windowStart < b.windowStart
    || (a.windowStart == b.windowStart && (a.windowEnd < b.windowEnd || (a.windowEnd == b.windowEnd && a.id <= b.id)))
  }

  lemma WindowOrderTotal()
    ensures TotalPreorder(WindowOrder)
  {
  }

  /** Everything before the cursor ended at or before `at`. */
  ghost predicate Passed(merged: seq<Pause>, p: nat, at: Instant) {
    p <= |merged| && forall j :: 0 <= j < p ==> merged[j].end.Some? && merged[j].end.value <= at
  }

  /** With all passed pauses over and the next one not, only the next one needs a look. */
  lemma CursorDecides(merged: seq<Pause>, p: nat, windowStart: Instant, windowEnd: Instant)
    requires Separated(merged) && Passed(merged, p, windowStart) && windowStart < windowEnd
    requires p < |merged| ==> merged[p].end.None? || merged[p].end.value > windowStart
    ensures SomePauseOverlaps(merged, windowStart, windowEnd) <==> p < |merged| && merged[p].Overlaps(windowStart, windowEnd)
  {
    if SomePauseOverlaps(merged, windowStart, windowEnd) {
      var i :| 0 <= i < |merged| && merged[i].Overlaps(windowStart, windowEnd);
      if p < i {
        assert merged[p].end.Some? && merged[p].end.value < merged[i].start;
      }
    }
  }

  ghost predicate GoodWindows(occurrences: seq<Occurrence>) {
    && (forall i :: 0 <= i < |occurrences| ==> occurrences[i].windowStart < occurrences[i].windowEnd)
    && (forall i, j :: 0 <= i < j < |occurrences| ==> occurrences[i].id != occurrences[j].id)
  }

  /** `result` holds the naive answer for `o`. */
  ghost predicate Answers(pauses: seq<Pause>, preserves: bool, result: map<Id, Eligibility>, o: Occurrence) {
    o.id in result && NaiveEligibility(o.windowStart, o.windowEnd, pauses, preserves) == Ok(result[o.id])
  }

  /** Advances the cursor past every pause that ends at or before the window start. */
  method Advance(merged: seq<Pause>, p0: nat, windowStart: Instant) returns (p: nat)
    requires Passed(merged, p0, windowStart)
    ensures Passed(merged, p, windowStart)
    ensures p < |merged| ==> merged[p].end.None? || merged[p].end.value > windowStart
  {
    p := p0;
    while p < |merged| && merged[p].end.Some? && merged[p].end.value <= windowStart
      invariant Passed(merged, p, windowStart)
    {
      p := p + 1;
    }
  }

  lemma SortedWindows(occurrences: seq<Occurrence>)
    requires GoodWindows(occurrences)
    ensures var sorted := Sort(occurrences, WindowOrder);
      && GoodWindows(sorted)
      && forall i, j :: 0 <= i < j < |sorted| ==> sorted[i].windowStart <= sorted[j].windowStart
  {
    WindowOrderTotal();
    SortSorts(occurrences, WindowOrder);
    SortedDistinct(occurrences, Sort(occurrences, WindowOrder));
  }

  /** The cursor only moves forward over windows sorted by start, yet every occurrence gets the
      answer of the naive check against every original pause. */
  method SweepEligibilities(pauses: seq<Pause>, occurrences: seq<Occurrence>, preserves: bool) returns (result: map<Id, Eligibility>)
    requires AllValid(pauses) && GoodWindows(occurrences)
    ensures forall i {:trigger occurrences[i]} :: 0 <= i < |occurrences| ==> Answers(pauses, preserves, result, occurrences[i])
  {
    var merged := MergedPauses(pauses);
    SortedWindows(occurrences);
    var sorted := Sort(occurrences, WindowOrder);
    var p: nat := 0;
    result := map[];
    for k := 0 to |sorted|
      invariant p <= |merged| && (k < |sorted| ==> Passed(merged, p, sorted[k].windowStart))
      invariant forall i {:trigger sorted[i]} :: 0 <= i < k ==> Answers(pauses, preserves, result, sorted[i])
    {
      var o := sorted[k];
      p := Advance(merged, p, o.windowStart);
      var overlaps := p < |merged| && merged[p].start < o.windowEnd
                      && (merged[p].end.None? || merged[p].end.value > o.windowStart);
      CursorDecides(merged, p, o.windowStart, o.windowEnd);
      assert SameOverlap(merged, pauses, o.windowStart, o.windowEnd);
      result := result[o.id := EligibilityOf(overlaps, preserves)];
    }
    forall i | 0 <= i < |occurrences| ensures Answers(pauses, preserves, result, occurrences[i]) {
      WindowOrderTotal();
      SortElements(occurrences, WindowOrder, occurrences[i]);
      var k :| 0 <= k < |sorted| && sorted[k] == occurrences[i];
    }
  }

  /** Sorting keeps ids distinct. */
  lemma SortedDistinct(occurrences: seq<Occurrence>, sorted: seq<Occurrence>)
    requires GoodWindows(occurrences) && multiset(sorted) == multiset(occurrences)
    ensures GoodWindows(sorted)
  {
    forall i | 0 <= i < |sorted| ensures sorted[i] in occurrences {
      assert sorted[i] in multiset(occurrences);
    }
    forall i, j | 0 <= i < j < |sorted| ensures sorted[i].id != sorted[j].id {
      var x :| 0 <= x < |occurrences| && occurrences[x] == sorted[i];
      var y :| 0 <= y < |occurrences| && occurrences[y] == sorted[j];
      if x == y {
        TwiceIff(sorted, sorted[i]);
        TwiceIff(occurrences, sorted[i]);
      }
    }
  }
}
