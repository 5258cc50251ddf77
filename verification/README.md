# DayWeave planning core, verified

DayWeave plans a person's work from a forest of items, habits with occurrences, and recurrence rules.
Its planning core is deterministic: no input or output, no clock, no randomness. This project models the
parts of that core with the most state and branching, and proves what they promise.

- **Hierarchy completion** (`Forest`, `HierarchyCompletion`, `HierarchyCompletionLaws`,
  `HierarchyCompletionMeaning`, `HierarchyCompletionRuns`): deciding which parents of a forest of any depth are
  completed, reopened or left alone.
- **Roll-ups** (`Rollup`, `HierarchyProgress`, `ExpectedDurations`): bounded and saturating sums over subtrees.
- **Occurrence lifecycle** (`OccurrenceLifecycle`): checking recorded members against a materialized plan and
  overlaying their statuses, all or nothing.
- **Snapshot preparation** (`CanonicalPreparation`, `CanonicalMeaning`): sensitivity, the Inbox subtree, pruning and
  accounting.
- **Habits** (`HabitRecords`, `HabitPauses`, `HabitTrends`, `HabitAnalytics`, `HabitProjection`,
  `HabitReports`, `HabitReportMeaning`): the revisioned record lifecycle, the missed policy, the pause sweep and the
  analytics projection.
- **Exact decimals** (`ProgressDecimals`) and **custom recurrence** (`RecurrenceRules`, `RecurrenceCanonical`,
  `RecurrenceLaws`, `RecurrenceMeaning`, `RecurrenceMatching`, `RecurrenceDates`): parser and printer pairs, and the
  expansion of a rule into dates. The rule grammar is a subset of section 3.3.10 of RFC 5545.
- `Base`, `Indexing`, `Sorting`, `Calendar`, `Digits`, `Text` and `Folds` hold the shared vocabulary.

Conventions of the model:

- Ids are natural numbers in the order of their 128-bit value; 0 is the nil id. Instants are nanosecond counts.
  Dates are civil dates with their Julian day numbers, over an unbounded range of years.
- Text in rules and decimals is its UTF-8 bytes, one `char` each.
- Integer widths are written out where they matter: 64-bit counters and revisions, 32-bit minutes, basis points.
- Ordered maps and sets are finite maps and sets, visited in ascending order where the order can be seen.
- Code that updates state in loops is a method proved against a specification function; the laws are lemmas about
  that function. The plan and the tallies are classes, as they are mutated in place.

Where a case function decides what an operation does, a law states the outcome on the items or the input without
naming that function. The modules whose names end in `Meaning`, and `RecurrenceMatching`, collect most of these laws.

Two expected properties do not hold without a condition, and the exact condition is proved. Undoing a habit
transition works exactly while a revision number is left (`UndoRestores`, `LastRevisionCannotBeUndone`). A skip
proposed by the missed policy is accepted exactly when its instant is not before the record's last update and a
revision number is left (`MissedSkipIsRecordable`, `EarlierDecisionIsRefused`).

Several defensive branches are shown to be unreachable: the overshoot error of the trend buckets, every overflow and
missing-bucket error of the analytics projection, the accounting error of the preparation, the parentless branch of
the pruner, the final range check of the decimal parser, and the emptiness checks of the day-list parsers.

## Model

| member | source | states |
|---|---|---|
| `Forest.Postorder` | crates/dayweave-core/src/hierarchy_completion.rs:250-285 | Succeeds exactly on closed, acyclic parent maps; the order is a permutation of all ids with every child before its parent, and is the one that always finishes the least ready id. On failure it names the least id with a missing parent or, failing that, the least id that really lies on a cycle |
| `Forest.ReducingEnd` | crates/dayweave-core/src/hierarchy_progress.rs:189-204 | When nothing is ready any more, the ids whose child counts are left over are exactly the ids on cycles |
| `Forest.LeftoverOnCycle` | crates/dayweave-core/src/hierarchy_completion.rs:269-283 | Counting argument: in a finite set where every member has a child in the set, every member lies on a cycle |
| `Forest.LeastFirstPostorder` | crates/dayweave-core/src/hierarchy_completion.rs:264-280 | Always finishing the least ready id of an acyclic forest reaches every id and never finishes a parent before a child |
| `Forest.CountChildren` | crates/dayweave-core/src/hierarchy_completion.rs:250-263 | Child counts are right exactly when every parent exists; otherwise the least id with a missing parent is reported |
| `Forest.MarkInherited` | crates/dayweave-core/src/hierarchy_completion.rs:196-204 | One pass in reverse postorder marks exactly the nodes with a flagged ancestor or self, at any depth |
| `HierarchyCompletion.EvaluateHierarchyCompletion` | crates/dayweave-core/src/hierarchy_completion.rs:188-224 | The iterative evaluation refines the recursive definition: first complaint of the index, then of the topology, then of the scope, else every node decided from the tally over its required descendants |
| `HierarchyCompletion.IndexItems` | crates/dayweave-core/src/hierarchy_completion.rs:226-248 | Indexing reports the first invalid or repeated item and otherwise loses none |
| `HierarchyCompletion.AddBranchTotal` | crates/dayweave-core/src/hierarchy_completion.rs:109-131 | Adding a finished branch overflows exactly when the combined total does, although four counters are checked separately |
| `HierarchyCompletion.TallyPartition` | crates/dayweave-core/src/hierarchy_completion.rs:109-131 | Completed, incomplete and unproven partition the required descendants |
| `HierarchyCompletion.DecideBottomUp` | crates/dayweave-core/src/hierarchy_completion.rs:205-222 | Accumulating counters child by child decides every node as the declarative tally over all required descendants would |
| `HierarchyCompletionLaws.EvaluationConsistent` | crates/dayweave-core/src/hierarchy_completion.rs:188-224 | Every decision of a successful evaluation is the decision that the final decisions of its required descendants call for |
| `HierarchyCompletionLaws.ConsistentIsEvaluation` | crates/dayweave-core/src/hierarchy_completion.rs:188-224 | Converse: a consistent assignment of decisions is the evaluation, so the result does not depend on the order of work |
| `HierarchyCompletionLaws.CountsAreDeclarative` | crates/dayweave-core/src/hierarchy_completion.rs:196-222 | Each node's counts are the number of descendants reachable through required edges at any depth, split into the three categories |
| `HierarchyCompletionLaws.AutomaticCompletionIff` | crates/dayweave-core/src/hierarchy_completion.rs:326-377 | A proven automatic parent is completed exactly when it has required descendants and every one of them is proven and decided completed |
| `HierarchyCompletionRuns.EvaluationFixedPoint` | crates/dayweave-core/src/hierarchy_completion.rs:314-397 | Writing statuses and provenance back and evaluating again succeeds with the same statuses, provenance and counts, and asks for no action except missing occurrence evidence |
| `HierarchyCompletionRuns.DecideAgain` | crates/dayweave-core/src/hierarchy_completion.rs:314-397 | A decision applied to its item is decided the same way again, and its provenance is valid |
| `HierarchyCompletionRuns.OverflowUnreachable` | crates/dayweave-core/src/hierarchy_completion.rs:109-131 | With at most 2^63 - 1 items no evaluation reports an overflow |
| `HierarchyCompletionRuns.RunRetains` | crates/dayweave-core/src/hierarchy_completion.rs:335-395 | Over any run of evaluations, override changes, child additions and status edits of other nodes, a node keeps the open status it would return to |
| `HierarchyCompletionRuns.RunReturnsToOriginalStatus` | crates/dayweave-core/src/hierarchy_completion.rs:358-395 | After any such run the node is either open in exactly its original status or completed with that status retained |
| `HierarchyCompletionMeaning.EvaluationMeaning` | crates/dayweave-core/src/hierarchy_completion.rs:188-397 | Every decision is fixed by its item and its required descendants, without naming the decision function: when a node is completed, kept, reopened or released, with which provenance, action, readiness and counts |
| `HierarchyCompletionMeaning.EvaluationFailsIff` | crates/dayweave-core/src/hierarchy_completion.rs:205-222 | Items that are indexed, closed and acyclic, under an accepted scope, fail to evaluate exactly when some proven node without an open status to return to has an override or is an automatic parent; the error is that of the first such node in the order of the evaluation |
| `HierarchyCompletionMeaning.ScopeAcceptedIff` | crates/dayweave-core/src/hierarchy_completion.rs:287-312 | An occurrence scope is accepted exactly when both ids are given and its root is the only parentless item and recurs; the refusals are told apart |
| `HierarchyCompletionMeaning.UnprovenIff` | crates/dayweave-core/src/hierarchy_completion.rs:196-204 | A node lacks proof exactly when it or an ancestor recurs without being the root of the scope |
| `HierarchyProgress.RollUpHierarchyProgress` | crates/dayweave-core/src/hierarchy_progress.rs:168-229 | Succeeds exactly on indexable, closed, acyclic input whose subtree totals all fit; each summary is the sum over the whole subtree in every field and counts exactly the leaves, events and estimates below, and an overflow names the parent of the first item, in the order of the reduction, whose branch takes a total out of bounds |
| `HierarchyProgress.CheckedAdd` | crates/dayweave-core/src/hierarchy_progress.rs:95-118 | Fails exactly when some field would exceed the bound, and otherwise adds every field |
| `HierarchyProgress.LeavesClassifiedOnce` | crates/dayweave-core/src/hierarchy_progress.rs:257-294 | The five leaf classes of a summary add up to the number of structural leaves below: each leaf is classified exactly once |
| `HierarchyProgress.IndexItems` | crates/dayweave-core/src/hierarchy_progress.rs:231-255 | The first invalid or repeated item is reported; otherwise all items are indexed with bounded durations |
| `HierarchyProgress.SummaryMeaning` | crates/dayweave-core/src/hierarchy_progress.rs:257-294 | Each of the ten totals of a summary is a count or a sum over the items below: leaves by status unless they or an ancestor recur, recurring leaves, events, leaves with effort but no estimate, and the three bounds of the recorded estimates |
| `ExpectedDurations.RollUpExpectedDurations` | crates/dayweave-core/src/domain.rs:1437-1504 | Succeeds exactly without repeats, missing parents and cycles; each result is the demand of the items of the subtree, summed exactly and capped at 2^32 - 1, and the error is the first repeated id, else the first unknown parent, else the least id on a cycle |
| `ExpectedDurations.TrueTotalMeans` | crates/dayweave-core/src/domain.rs:601-612 | The total of a subtree is the sum, over its calendar events and over its leaves that carry effort, of the remaining minutes or else the expected ones |
| `ExpectedDurations.SaturatingHandUp` | crates/dayweave-core/src/domain.rs:1483-1496 | Saturating at every step equals capping the exact sum once |
| `ExpectedDurations.RollUpForest` | crates/dayweave-core/src/domain.rs:1466-1503 | Stack order instead of id order gives the same totals and the same least cycle id |
| `ExpectedDurations.FindDuplicate` | crates/dayweave-core/src/domain.rs:1440-1450 | Reports the first repeated id, and none exactly when ids are distinct |
| `OccurrenceLifecycle.ValidateMemberTree` | crates/dayweave-core/src/occurrence_lifecycle.rs:187-225 | Accepts exactly the member sets whose every parent chain reaches the one named root |
| `Forest.TreeIff` | crates/dayweave-core/src/occurrence_lifecycle.rs:187-225 | All chains reach the root exactly when the parent map is closed, acyclic and has no second root |
| `OccurrenceLifecycle.IndexMembers` | crates/dayweave-core/src/occurrence_lifecycle.rs:160-185 | Accepts exactly the instances with distinct, valid members that form a tree under the named root; the error is that of the first bad member in list order, or the shape of the tree |
| `OccurrenceLifecycle.MembersFaultIff` | crates/dayweave-core/src/occurrence_lifecycle.rs:160-185 | No member in list order has a complaint and the tree holds exactly when all members are valid, distinct and reach the root |
| `OccurrenceLifecycle.WithinBudget` | crates/dayweave-core/src/occurrence_lifecycle.rs:119-133 | Stopping at the first excess is the same as comparing the whole member total with the budget |
| `OccurrenceLifecycle.IndexContext` | crates/dayweave-core/src/occurrence_lifecycle.rs:111-158 | Accepts exactly the valid contexts and indexes every instance by its occurrence; the error is the revision, else the budget, else that of the first bad instance in list order |
| `OccurrenceLifecycle.CollectStatuses` | crates/dayweave-core/src/occurrence_lifecycle.rs:259-328 | All instances are checked before anything changes; the collected statuses are those of exactly the listed clones, and the error is the complaint about the least bad occurrence |
| `OccurrenceLifecycle.InstanceMismatchIff` | crates/dayweave-core/src/occurrence_lifecycle.rs:260-326 | Checking occurrence, clones and members one after another leaves no complaint exactly when the instance agrees with all of them |
| `OccurrenceLifecycle.MaterializedPlan.Project` | crates/dayweave-core/src/occurrence_lifecycle.rs:329-333 | Only the statuses of listed clones change; all other items and fields stay |
| `OccurrenceLifecycle.MaterializedPlan.ApplyOccurrenceLifecycle` | crates/dayweave-core/src/occurrence_lifecycle.rs:231-335 | All or nothing: succeeds exactly when context and every member agree with the plan; an error is the first complaint and leaves the plan untouched, and success changes only listed clones, to blocked when the template is blocked and the member open, otherwise to the member's status |
| `OccurrenceLifecycle.OverlaidMeans` | crates/dayweave-core/src/occurrence_lifecycle.rs:305-333 | After an overlay a listed clone is blocked exactly when its member is blocked, or its template is blocked and the member open; otherwise it has the member's status. Every other item is as before |
| `OccurrenceLifecycle.InstanceFitsIff` | crates/dayweave-core/src/occurrence_lifecycle.rs:259-326 | An instance agrees with the plan exactly when its occurrence is generated, each of its clones has a listed member, and each member fits its source item and its execution, stated on the member list |
| `OccurrenceLifecycle.ConflictsIff` | crates/dayweave-core/src/occurrence_lifecycle.rs:309-325 | A clone conflicts with its execution exactly when something reserved would be blocked or finished, or something skipped would not stay skipped |
| `CanonicalPreparation.EffectiveSensitivity` | crates/dayweave-compose/src/prepare.rs:801-837 | An item is non-sensitive exactly when its ancestor chain ends at a real root with no sensitive item on it, for every order in which the items may be visited |
| `CanonicalPreparation.Climb` | crates/dayweave-compose/src/prepare.rs:808-826 | The climb stops at a known ancestor, a root, a missing parent or a repeated item, and hands down whether what lies above is clear |
| `CanonicalPreparation.CycleNotClear` | crates/dayweave-compose/src/prepare.rs:818-823 | Nothing on a cycle is non-sensitive |
| `CanonicalPreparation.InboxSubtree` | crates/dayweave-compose/src/prepare.rs:1230-1262 | The bounded breadth-first search empties its frontier and returns exactly the items with an Inbox ancestor or self |
| `CanonicalPreparation.PruneOrphans` | crates/dayweave-compose/src/prepare.rs:1276-1307 | Removes exactly the items whose chain leaves the accepted set, loses none, and leaves a parent-closed set |
| `CanonicalPreparation.HeirHasParent` | crates/dayweave-compose/src/prepare.rs:1289-1301 | Whatever is pruned has a parent, so the branch for a parentless item is never taken |
| `CanonicalPreparation.Classify` | crates/dayweave-compose/src/prepare.rs:449-479 | Every item leaves the classification in exactly one of three ways |
| `CanonicalPreparation.MapRetained` | crates/dayweave-compose/src/prepare.rs:1264-1274 | A planned item keeps its parent, which is planned too, carries its effective sensitivity, and is marked exactly when a child was omitted |
| `CanonicalPreparation.FirstEqualNeighbours` | crates/dayweave-compose/src/prepare.rs:432-437 | In a list sorted by id, the first equal neighbours have the least repeated id, and there are none exactly when all ids differ |
| `CanonicalPreparation.PrepareCanonicalSchedule` | crates/dayweave-compose/src/prepare.rs:421-560 | Fails only on too many items or on a repeated id, and then names the least repeated one; the planned and rejected items are exactly the declarative ones, whatever the input order, and the final accounting check always balances |
| `CanonicalMeaning.PreparationMeaning` | crates/dayweave-compose/src/prepare.rs:421-560 | What a preparation promises item by item: which items are planned, with which sensitivity and omission mark, which are rejected, and how many are set aside |
| `CanonicalMeaning.PlannedIff` | crates/dayweave-compose/src/prepare.rs:449-500 | An item is planned exactly when it and everything above it exists, is plannable and is not in the Inbox |
| `CanonicalMeaning.RejectedIff` | crates/dayweave-compose/src/prepare.rs:449-500 | An item is rejected exactly when it asks for planning, has no Inbox ancestor or self, and something above it cannot be planned |
| `CanonicalMeaning.ClearIff` | crates/dayweave-compose/src/prepare.rs:801-837 | Non-sensitive means that the chain ends at a root and no item on it is sensitive |
| `HabitRecords.ValueAcceptedIff` | crates/dayweave-core/src/habits.rs:429-475 | A value is accepted exactly when it is recordable: pending ones empty, progress fitting the outcome, text legible, numbers in range, and an occurrence time not after the recording; every refusal is true of the value |
| `HabitRecords.ValidTextIff` | crates/dayweave-core/src/habits.rs:719-724 | Trimming finds text exactly when some character is visible, and changes nothing exactly when neither end is white space |
| `HabitRecords.CodePoints` | crates/dayweave-core/src/habits.rs:719-724 | Which code points are white space and which are control characters |
| `HabitRecords.RecordValidIff` | crates/dayweave-core/src/habits.rs:528-542 | A record is valid exactly when it is identified, revised, does not run backwards and holds a recordable value |
| `HabitRecords.CommandAcceptedIff` | crates/dayweave-core/src/habits.rs:594-708 | A command is accepted exactly when it is timely, a revision number is left, and its value advances the current one without losing evidence or corrects a recorded one |
| `HabitRecords.TransitionNamed` | crates/dayweave-core/src/habits.rs:594-649 | The four names of transitions, told by where they start, where they end and what was asked for |
| `HabitRecords.RefusalIsTrue` | crates/dayweave-core/src/habits.rs:594-708 | Every refusal names something that is wrong with the record or the command, in the order of the checks |
| `HabitRecords.ApplyKeepsValid` | crates/dayweave-core/src/habits.rs:594-649 | Success keeps the record valid, adds exactly one to the revision, never moves time back and touches nothing but value, revision and time |
| `HabitRecords.OrdinaryStep` | crates/dayweave-core/src/habits.rs:651-708 | An ordinary record lowers the rank and preserves all evidence |
| `HabitRecords.OrdinaryRunBounded` | crates/dayweave-core/src/habits.rs:651-708 | Any run of ordinary records keeps progress, quantity and note evidence, never leaves a terminal outcome, and has at most 10,000 steps |
| `HabitRecords.UndoRestores` | crates/dayweave-core/src/habits.rs:594-649 | At any later time the matching correction or record restores the earlier value, exactly when a revision number is left |
| `HabitRecords.LastRevisionCannotBeUndone` | crates/dayweave-core/src/habits.rs:637-641 | A concrete record whose last transition cannot be undone |
| `HabitRecords.MissedSkipIsRecordable` | crates/dayweave-core/src/habits.rs:891-942 | A skip proposed by the missed policy is accepted as an ordinary record exactly when time has not moved back and a revision number is left, and it preserves all evidence |
| `HabitRecords.EarlierDecisionIsRefused` | crates/dayweave-core/src/habits.rs:891-942 | A concrete policy decision, taken for an instant before the record's last update, that the record refuses |
| `HabitRecords.MissedDecisionIff` | crates/dayweave-core/src/habits.rs:891-958 | The missed policy acts exactly on occurrences that are open, unpaused and over; each decision is what it says, a carried window keeps its length, and the failures are exact |
| `HabitRecords.OverlapsIff` | crates/dayweave-core/src/habits.rs:807-809 | A pause overlaps a window exactly when some instant lies in both half-open intervals |
| `HabitPauses.NaiveEligibilityIff` | crates/dayweave-core/src/habits.rs:826-843 | A window is paused exactly when some instant of it lies in a pause, and protected exactly when pauses preserve statistics; empty windows and pauses are refused |
| `HabitPauses.MergedPauses` | crates/dayweave-core/src/habits.rs:1504-1524 | The merged pauses are disjoint, ordered and do not touch, and overlap exactly the windows that some original pause overlaps |
| `HabitPauses.SweepEligibilities` | crates/dayweave-core/src/habits.rs:1460-1502 | The sorted sweep with its monotone cursor gives every occurrence the eligibility of the naive check against every pause |
| `HabitPauses.CursorDecides` | crates/dayweave-core/src/habits.rs:1481-1495 | The single pause under the cursor decides the overlap with all of them |
| `HabitTrends.EmptyTrendBuckets` | crates/dayweave-core/src/habits.rs:1691-1711 | The loop reaches the bucket of the range end without overshooting; the buckets tile the range without gaps |
| `HabitTrends.ExactlyOneBucket` | crates/dayweave-core/src/habits.rs:1713-1759 | Every date of the range lies in exactly one bucket, which is the one computed for it, for days, weeks with any first day, and months |
| `HabitTrends.BucketUnique` | crates/dayweave-core/src/habits.rs:1713-1730 | Any aligned bucket around a date is the one computed for the date |
| `HabitTrends.NeverOvershoots` | crates/dayweave-core/src/habits.rs:1732-1759 | From any bucket before the last, the next one does not pass the last |
| `HabitAnalytics.MutableTally.constructor` | crates/dayweave-core/src/habits.rs:1526-1533 | A new tally is empty |
| `HabitAnalytics.MutableTally.ObserveEvidence` | crates/dayweave-core/src/habits.rs:1541-1554 | Time and quantities of every due occurrence are added per unit; it fails exactly when a total no longer fits |
| `HabitAnalytics.MutableTally.Observe` | crates/dayweave-core/src/habits.rs:1536-1582 | One observation turns the tally into the tally of one more occurrence; stopping at the first counter that overflows fails exactly when some number of that tally does not fit |
| `HabitAnalytics.TalliesBalance` | crates/dayweave-core/src/habits.rs:1421-1458 | For at most 1,000,000 valid occurrences no tally overflows; due is eligible plus protected, and eligible is completed, partial, skipped and pending |
| `HabitAnalytics.AdherenceIsMean` | crates/dayweave-core/src/habits.rs:1584-1597 | For validated occurrences neither the 64-bit addition nor the 16-bit conversion overflows; the adherence is at most 10,000 basis points, within half a basis point of the exact mean, and absent exactly when nothing is eligible |
| `HabitAnalytics.MeanOverflowsIff` | crates/dayweave-core/src/habits.rs:1584-1597 | Outside the validated range the mean fails exactly when the rounding sum needs more than 64 bits or the mean more than 16 |
| `HabitAnalytics.TallyMeasures` | crates/dayweave-core/src/habits.rs:1536-1582 | Every number of a tally is the sum of what each occurrence contributes by itself |
| `HabitAnalytics.BucketsConserve` | crates/dayweave-core/src/habits.rs:1366-1374 | Every count, second and quantity summed over distinct buckets that cover all dates is the total |
| `HabitAnalytics.Streaks` | crates/dayweave-core/src/habits.rs:1617-1631 | The 32-bit count fails exactly when some successful run is longer than 2^32 - 1; otherwise the current streak is the longest successful suffix and the longest streak is the longest successful run |
| `HabitProjection.ValidateInput` | crates/dayweave-core/src/habits.rs:1421-1458 | Reports the first complaint about range, sizes, pauses and occurrences |
| `HabitProjection.AnalyticsEligibilities` | crates/dayweave-core/src/habits.rs:1460-1502 | Every due occurrence is answered as by the naive check |
| `HabitProjection.StreakMapMeaning` | crates/dayweave-core/src/habits.rs:1375-1382 | A date takes part in streaks exactly when it has an occurrence that is not protected, and succeeds exactly when all of those are completed |
| `HabitProjection.StreakMapSize` | crates/dayweave-core/src/habits.rs:1375-1382 | No more dates take part in streaks than there are due occurrences, so no streak of validated input overflows |
| `HabitProjection.StreaksInDateOrder` | crates/dayweave-core/src/habits.rs:1617-1631 | Streak lengths are taken over the participating dates in calendar order, and exist whenever there are at most 2^32 - 1 of them |
| `HabitProjection.TallyDue` | crates/dayweave-core/src/habits.rs:1350-1383 | The pass over the occurrences finds every bucket and eligibility, overflows nowhere, and leaves the total and each bucket as the tally of exactly its due occurrences |
| `HabitProjection.CalculateHabitAnalytics` | crates/dayweave-core/src/habits.rs:1335-1419 | Fails exactly on invalid input, with its first complaint; otherwise totals, adherence, streaks and buckets are those of the due occurrences. The overflow branches of tallies, streaks and adherence and the missing-bucket branch are all unreachable |
| `HabitReports.ReportConserves` | crates/dayweave-core/src/habits.rs:1335-1419 | In every report each count, second and quantity summed over the buckets equals the total |
| `HabitReports.ReportBalances` | crates/dayweave-core/src/habits.rs:1335-1419 | The total and every bucket of a report are balanced and their adherence is a mean |
| `HabitReports.ReportIgnoresOrder` | crates/dayweave-core/src/habits.rs:1335-1419 | Two reports on the same occurrences in different orders are equal: totals with every quantity, adherence, streaks and all buckets |
| `HabitReportMeaning.ReportMeaning` | crates/dayweave-core/src/habits.rs:1335-1419 | Every number of the report, in total and per bucket, is a sum over the occurrences of the input that are due on the dates of its period; a bucket is a day, seven days from the first weekday, or a month |
| `HabitReportMeaning.PausesInReport` | crates/dayweave-core/src/habits.rs:1335-1419 | Where pauses preserve statistics, the due occurrences with a paused instant are protected and the others eligible; otherwise none is protected and all due ones are eligible |
| `HabitReportMeaning.StreaksMean` | crates/dayweave-core/src/habits.rs:1375-1402 | Streaks run over the dates, in order, on which something due counts; a date is kept exactly when all that counts on it was completed |
| `ProgressDecimals.FormatThenParse` | crates/dayweave-core/src/progress_value.rs:38-110 | Exactly the values of magnitude up to 999,999,999,999,999,999 have a spelling, and it reads back as the value |
| `ProgressDecimals.ParseThenFormat` | crates/dayweave-core/src/progress_value.rs:38-110 | Every accepted text is the spelling of its value, and the value is in range |
| `ProgressDecimals.OneSpelling` | crates/dayweave-core/src/progress_value.rs:38-88 | Two accepted texts with the same value are the same text |
| `ProgressDecimals.ParseFitsI64` | crates/dayweave-core/src/progress_value.rs:66-83 | With the digit counts already checked no product or sum leaves the signed 64-bit range, and the final range check cannot fail |
| `RecurrenceRules.ParseCustomRrule` | crates/dayweave-core/src/custom_recurrence.rs:107-192 | The parser's loop gives the first error in text order, or the rule that the parts denote |
| `RecurrenceRules.ParseByDay` | crates/dayweave-core/src/custom_recurrence.rs:216-243 | The list is the set of its entries or the first bad entry; the final emptiness check cannot fail |
| `RecurrenceRules.ParseByMonthDay` | crates/dayweave-core/src/custom_recurrence.rs:245-269 | The list is the set of its entries or the first bad entry; the final emptiness check cannot fail |
| `RecurrenceMeaning.ParseMeaning` | crates/dayweave-core/src/custom_recurrence.rs:107-291 | A text parses to a rule exactly when it denotes it: size, characters, prefix, parts of one name and one value, distinct names, each field spelled in its range, defaults, one termination, no month days in weekly rules |
| `RecurrenceMeaning.RefusalMeaning` | crates/dayweave-core/src/custom_recurrence.rs:107-291 | Every refusal is true, and of the first thing wrong: the text, then the first part that is not understood and in it form, name and value, then the rule as a whole |
| `RecurrenceMeaning.BodyMeans` | crates/dayweave-core/src/custom_recurrence.rs:119-126 | The body is what follows a prefix written in any letter case, and the whole text otherwise |
| `RecurrenceMeaning.FieldIff` | crates/dayweave-core/src/custom_recurrence.rs:151-171 | A name and a value are read as a field exactly when they denote it |
| `RecurrenceMeaning.CollectedIff` | crates/dayweave-core/src/custom_recurrence.rs:216-269 | A day list is read exactly when its entries name pairwise different days, as the set of what they name |
| `RecurrenceRules.DayTokenMeans` | crates/dayweave-core/src/custom_recurrence.rs:482-492 | The seven two-letter tokens name the days from Monday on, and nothing else names a day |
| `RecurrenceRules.DayTokenRefused` | crates/dayweave-core/src/custom_recurrence.rs:216-243 | A token that names no day is refused as an ordinal exactly when it holds a digit or a sign |
| `RecurrenceRules.FrequencyMeans` | crates/dayweave-core/src/custom_recurrence.rs:152-159 | The three frequencies and their names |
| `RecurrenceLaws.PartsAcceptedIff` | crates/dayweave-core/src/custom_recurrence.rs:139-171 | Parts are accepted exactly when each one denotes a field by itself and no two have the same name, and exactly the denoted fields are set |
| `RecurrenceLaws.CaseIrrelevant` | crates/dayweave-core/src/custom_recurrence.rs:119-149 | Texts that differ only in letter case parse alike, errors included |
| `RecurrenceLaws.PrefixIrrelevant` | crates/dayweave-core/src/custom_recurrence.rs:119-129 | The optional prefix, in any letter case, changes nothing |
| `RecurrenceLaws.PartOrderIrrelevant` | crates/dayweave-core/src/custom_recurrence.rs:139-171 | Any order of the parts of an accepted rule denotes the same rule |
| `RecurrenceLaws.DayOrderIrrelevant` | crates/dayweave-core/src/custom_recurrence.rs:216-269 | Any order of the entries of an accepted day list denotes the same set |
| `RecurrenceCanonical.CanonicalParses` | crates/dayweave-core/src/custom_recurrence.rs:293-334 | Parsing the canonical spelling of any well-formed rule gives back that rule |
| `RecurrenceCanonical.CanonicalFits` | crates/dayweave-core/src/custom_recurrence.rs:293-334 | Every canonical spelling has at most 387 bytes, far below the limit of 1,024 |
| `RecurrenceCanonical.ParsedWellFormed` | crates/dayweave-core/src/custom_recurrence.rs:107-192 | Every parsed rule respects all ranges and the ban on month days in weekly rules |
| `RecurrenceCanonical.WellFormedIffParsed` | crates/dayweave-core/src/custom_recurrence.rs:107-192 | The rules that some text denotes are exactly the well-formed ones |
| `RecurrenceCanonical.CanonicalIdempotent` | crates/dayweave-core/src/custom_recurrence.rs:59-61 | Canonicalising keeps the meaning, so doing it again changes nothing |
| `RecurrenceCanonical.CanonicalInjective` | crates/dayweave-core/src/custom_recurrence.rs:293-334 | Two accepted texts have the same canonical spelling exactly when they denote the same rule |
| `RecurrenceCanonical.WriteCanonical` | crates/dayweave-core/src/custom_recurrence.rs:293-334 | Pushing the parts one after another writes the parts of the rule joined in canonical order, with both sets ascending |
| `RecurrenceCanonical.CanonicalizeCustomRrule` | crates/dayweave-core/src/custom_recurrence.rs:59-61 | Fails exactly as the parser does, and otherwise returns a spelling that parses to the same rule |
| `RecurrenceMatching.WeekDivisionExact` | crates/dayweave-core/src/custom_recurrence.rs:494-498 | Week keys are a whole number of weeks apart, so the truncating division by seven is exact and not negative for later dates |
| `RecurrenceMatching.SameWeekIff` | crates/dayweave-core/src/custom_recurrence.rs:494-498 | No week has elapsed exactly when the date lies in the seven days of the anchor's week |
| `RecurrenceMatching.EveryNthWeek` | crates/dayweave-core/src/custom_recurrence.rs:445-450 | A weekly rule keeps exactly the weeks a whole number of intervals away from the anchor's week |
| `RecurrenceMatching.MatchesIffOccurs` | crates/dayweave-core/src/custom_recurrence.rs:436-479 | The arithmetic of the code matches a date exactly when the rule occurs on it: a whole number of intervals of days, weeks or months from the anchor, on a chosen weekday, on a chosen day from the start or the end of its month, else on the anchor's own |
| `Calendar.MillenniumDay` | crates/dayweave-core/src/custom_recurrence.rs:494-510 | The first of January 2000 has Julian day number 2,451,545 and is a Saturday, which fixes the epoch of day numbers and weekdays |
| `Calendar.WeekdayIndexed` | crates/dayweave-core/src/custom_recurrence.rs:500-510 | Weekdays are numbered from Monday on |
| `Calendar.WeekdaysFollow` | crates/dayweave-core/src/custom_recurrence.rs:494-510 | Each day has the weekday after that of the day before |
| `RecurrenceDates.OccurrenceDatesThrough` | crates/dayweave-core/src/custom_recurrence.rs:340-374 | The scan reports the horizon-free expansion: the same error, or its dates up to the horizon with gap-free numbers |
| `RecurrenceDates.ExpansionExact` | crates/dayweave-core/src/custom_recurrence.rs:340-374 | The expansion is strictly increasing and holds exactly the dates on which the rule occurs, up to its last; COUNT gives exactly that many and UNTIL misses none |
| `RecurrenceDates.CountNeverOverBudget` | crates/dayweave-core/src/custom_recurrence.rs:414-425 | A COUNT rule succeeds exactly when it occurs that often within 36,600 days, and never fails on the occurrence budget |
| `RecurrenceDates.UntilFailsIff` | crates/dayweave-core/src/custom_recurrence.rs:385-425 | An UNTIL rule fails exactly when it ends before the anchor or 36,600 days on or later, never occurs, or occurs more than 10,000 times, with the matching error |
| `RecurrenceDates.HorizonPrefix` | crates/dayweave-core/src/custom_recurrence.rs:340-374 | The horizon decides neither success nor numbering: a nearer one lists a prefix of what a farther one lists |
| `RecurrenceDates.BoundsSpan` | crates/dayweave-core/src/custom_recurrence.rs:385-412 | An accepted search covers between 1 and 36,600 days |

## Left out

- The process supervisor, the calendar client, the server and the native bindings: operating system and network work.
- The scheduler and the recurrence materializer: `recurrence.rs` and `scheduler.rs` are not part of this model; a plan is taken as given items, occurrences and clone identities.
- Wire decoding and legacy shapes of stored values: the model starts from decoded values.
- Time zone lookup and name-based ids (`rule_id`): foreign libraries.
- The field-by-field validators of metadata and of canonical items: `classify_item` appears as a verdict given with each item, because its branches would only add easy members.
- `supportive_facts` and `materialize_habit_missed_scheduling_decision`: flat case analysis without further state.
- The least and greatest representable dates: years are unbounded, so the calendar overflow errors of dates do not occur in the model.
- OccurrenceLifecycle.MaterializedPlan.ApplyOccurrenceLifecycle: takes source items, occurrences and execution units already indexed, so repeated entries of those lists are not modelled.
- HierarchyCompletionMeaning.EvaluationFailsIff: for at most 2^63 - 1 items, which every slice in memory satisfies.
- HierarchyCompletionLaws.ConsistentIsEvaluation: for at most 2^63 - 1 items, which every slice in memory satisfies.
- CanonicalPreparation.PrepareCanonicalSchedule: starts from normalized items that have passed the request and item validators; recurrence references, the calendar and the assembly of the request are not modelled.
