/** Habit occurrence lifecycle: optimistic revisions, monotone ordinary records, explicit
    corrections, and the policy for occurrences missed by their window. */
module HabitRecords {
  import opened Base

  const BASIS_POINTS_SCALE := 10_000
  const MAX_NOTE_CHARS := 10_000
  const MAX_UNIT_CHARS := 200
  const MAX_QUANTITY := 1_000_000_000_000
  const MAX_ACTUAL_SECONDS := 366 * 24 * 60 * 60

  /** Nanoseconds since the Unix epoch. */
  type Instant = int

  /** The last representable instant, at the end of the year 9999. */
  const MAX_INSTANT: Instant := 253_402_300_799_999_999_999

  datatype Quantity = Quantity(amount: int, unit: string)

  datatype SkipReason = User | MissedPolicy

  datatype Outcome = Pending | Partial | Completed | Skipped(reason: SkipReason)

  datatype Value = Value(
    outcome: Outcome,
    progress: nat,
    quantity: Option<Quantity>,
    actualSeconds: Option<nat>,
    note: Option<string>,
    occurredAt: Option<Instant>)

  const PENDING := Value(Pending, 0, None, None, None, None)

  datatype Record = Record(
    habitId: Id,
    occurrenceId: Id,
    localDate: int,
    revision: nat,
    value: Value,
    createdAt: Instant,
    updatedAt: Instant)

  datatype CommandKind = Ordinary(value: Value) | Correct(value: Value)

  datatype Command = Command(expectedRevision: nat, recordedAt: Instant, kind: CommandKind)

  datatype TransitionKind = Recorded | Progressed | Corrected | Reopened

  datatype Transition = Transition(kind: TransitionKind, previous: Record, current: Record)

  datatype Error =
    | InvalidHabitId
    | InvalidOccurrenceId
    | InvalidRevision
    | RevisionConflict(expected: nat, actual: nat)
    | RevisionOverflow
    | TimestampRegression
    | InvalidQuantity
    | InvalidQuantityUnit
    | InvalidActualSeconds
    | InvalidNote
    | PendingHasEvidence
    | InvalidPartialProgress
    | InvalidCompletedProgress
    | InvalidSkippedProgress
    | PendingHasOccurredTime
    | RecordedOutcomeMissingOccurredTime
    | OccurredTimeInFuture
    | InvalidForwardTransition
    | ProgressDidNotAdvance
    | ProgressRegressed
    | QuantityUnitChanged
    | QuantityEvidenceChanged
    | QuantityEvidenceRemoved
    | ActualSecondsEvidenceRemoved
    | ActualSecondsRegressed
    | NoteEvidenceRemoved
    | NoteEvidenceChanged
    | CorrectionRequiresRecordedOutcome
    | NoChange

  // ---- Validation ----

  /** Unicode `White_Space`. */
  predicate IsWhitespace(c: char) {
    || '\t' <= c <= '\r' || c == ' '
    || c == '\U{0085}' || c == '\U{00A0}' || c == '\U{1680}' || '\U{2000}' <= c <= '\U{200A}'
    || c == '\U{2028}' || c == '\U{2029}' || c == '\U{202F}' || c == '\U{205F}' || c == '\U{3000}'
  }

  /** Unicode general category `Cc`. */
  predicate IsControl(c: char) {
    c <= '\U{001F}' || '\U{007F}' <= c <= '\U{009F}'
  }

  const WHITE_SPACE := {
    9, 10, 11, 12, 13, 32, 133, 160, 5760, 8192, 8193, 8194, 8195, 8196, 8197, 8198, 8199, 8200, 8201, 8202,
    8232, 8233, 8239, 8287, 12288 }

  /** White space and control characters by their code points. */
  lemma CodePoints(c: char)
    ensures IsWhitespace(c) <==> c as int in WHITE_SPACE
    ensures IsControl(c) <==> c as int < 32 || 127 <= c as int < 160
  {
  }

  function TrimStart(s: string): string {
    if s != [] && IsWhitespace(s[0]) then TrimStart(s[1..]) else s
  }

  function TrimEnd(s: string): string {
    if s != [] && IsWhitespace(s[|s| - 1]) then TrimEnd(s[..|s| - 1]) else s
  }

  function Trim(s: string): string {
    TrimEnd(TrimStart(s))
  }

  predicate ValidText(s: string, maxChars: nat) {
    && Trim(s) != []
    && |s| <= maxChars
    && forall i :: 0 <= i < |s| ==> !IsControl(s[i])
  }

  /** Something visible, at most so many characters, and no control characters. */
  ghost predicate Legible(s: string, maxChars: nat) {
    Visible(s) && |s| <= maxChars && forall i :: 0 <= i < |s| ==> !IsControl(s[i])
  }

  /** No white space at either end. */
  ghost predicate Trimmed(s: string) {
    s == [] || (!IsWhitespace(s[0]) && !IsWhitespace(s[|s| - 1]))
  }

  ghost predicate Visible(s: string) {
    exists i :: 0 <= i < |s| && !IsWhitespace(s[i])
  }

  lemma {:induction false} TrimStartKeeps(s: string)
    ensures TrimStart(s) == [] <==> !Visible(s)
    ensures TrimStart(s) != [] ==> !IsWhitespace(TrimStart(s)[0]) && TrimStart(s)[|TrimStart(s)| - 1] == s[|s| - 1]
    ensures |TrimStart(s)| <= |s| && (TrimStart(s) == s <==> s == [] || !IsWhitespace(s[0]))
    ensures TrimStart(s) != s ==> |TrimStart(s)| < |s|
  {
    if s != [] && IsWhitespace(s[0]) {
      TrimStartKeeps(s[1..]);
      if Visible(s) {
        var i :| 0 <= i < |s| && !IsWhitespace(s[i]);
        assert s[1..][i - 1] == s[i];
      }
    }
  }

  lemma {:induction false} TrimEndKeeps(s: string)
    ensures s != [] && !IsWhitespace(s[0]) ==> TrimEnd(s) != []
    ensures |TrimEnd(s)| <= |s| && (TrimEnd(s) == s <==> s == [] || !IsWhitespace(s[|s| - 1]))
  {
    if s != [] && IsWhitespace(s[|s| - 1]) {
      TrimEndKeeps(s[..|s| - 1]);
    }
  }

  lemma TrimMeans(s: string)
    ensures Trim(s) != [] <==> Visible(s)
    ensures Trim(s) == s <==> Trimmed(s)
  {
    TrimStartKeeps(s);
    TrimEndKeeps(TrimStart(s));
  }

  lemma ValidTextIff(s: string, maxChars: nat)
    ensures ValidText(s, maxChars) <==> Legible(s, maxChars)
    ensures Trim(s) == s <==> Trimmed(s)
  {
    TrimMeans(s);
  }

  function QuantityError(q: Quantity): Option<Error> {
    if q.amount > MAX_QUANTITY || q.amount < -MAX_QUANTITY then Some(InvalidQuantity)
    else if !ValidText(q.unit, MAX_UNIT_CHARS) || Trim(q.unit) != q.unit then Some(InvalidQuantityUnit)
    else None
  }

  function ShapeError(v: Value): Option<Error> {
    match v.outcome
    case Pending =>
      if v.progress != 0 || v.quantity.Some? || v.actualSeconds.Some? || v.note.Some? then Some(PendingHasEvidence) else None
    case Partial => if v.progress < 1 || v.progress >= BASIS_POINTS_SCALE then Some(InvalidPartialProgress) else None
    case Completed => if v.progress != BASIS_POINTS_SCALE then Some(InvalidCompletedProgress) else None
    case Skipped(_) => if v.progress >= BASIS_POINTS_SCALE then Some(InvalidSkippedProgress) else None
  }

  function TimeError(v: Value, recordedAt: Instant): Option<Error> {
    if v.outcome.Pending? then (if v.occurredAt.Some? then Some(PendingHasOccurredTime) else None)
    else match v.occurredAt
      case None => Some(RecordedOutcomeMissingOccurredTime)
      case Some(at) => if at <= recordedAt then None else Some(OccurredTimeInFuture)
  }

  /** The first complaint about a value recorded at `recordedAt`. */
  function ValueError(v: Value, recordedAt: Instant): Option<Error> {
    if v.quantity.Some? && QuantityError(v.quantity.value).Some? then QuantityError(v.quantity.value)
    else if v.actualSeconds.Some? && v.actualSeconds.value > MAX_ACTUAL_SECONDS then Some(InvalidActualSeconds)
    else if v.note.Some? && !ValidText(v.note.value, MAX_NOTE_CHARS) then Some(InvalidNote)
    else if ShapeError(v).Some? then ShapeError(v)
    else TimeError(v, recordedAt)
  }

  function RecordError(r: Record): Option<Error> {
    if r.habitId == NIL then Some(InvalidHabitId)
    else if r.occurrenceId == NIL then Some(InvalidOccurrenceId)
    else if r.revision == 0 then Some(InvalidRevision)
    else if r.updatedAt < r.createdAt then Some(TimestampRegression)
    else ValueError(r.value, r.updatedAt)
  }

  predicate Valid(r: Record) {
    RecordError(r).None?
  }

  // ---- Commands ----

  function EvidenceError(current: Value, next: Value): Option<Error> {
    if current.quantity.Some? && next.quantity.None? then Some(QuantityEvidenceRemoved)
    else if current.quantity.Some? && current.quantity.value.unit != next.quantity.value.unit then Some(QuantityUnitChanged)
    else if current.quantity.Some? && current.quantity.value.amount != next.quantity.value.amount then Some(QuantityEvidenceChanged)
    else if current.actualSeconds.Some? && next.actualSeconds.None? then Some(ActualSecondsEvidenceRemoved)
    else if current.actualSeconds.Some? && next.actualSeconds.value < current.actualSeconds.value then Some(ActualSecondsRegressed)
    else if current.note.Some? && next.note.None? then Some(NoteEvidenceRemoved)
    else if current.note.Some? && current.note.value != next.note.value then Some(NoteEvidenceChanged)
    else None
  }

  /** Why `next` cannot follow `current` as an ordinary record. */
  function ForwardError(current: Value, next: Value): Option<Error> {
    if current.outcome.Pending? && !next.outcome.Pending? then None
    else if current.outcome.Partial? && next.outcome.Partial? then
      if next.progress <= current.progress then Some(ProgressDidNotAdvance) else EvidenceError(current, next)
    else if current.outcome.Partial? && next.outcome.Completed? then EvidenceError(current, next)
    else if current.outcome.Partial? && next.outcome.Skipped? then
      if next.progress < current.progress then Some(ProgressRegressed) else EvidenceError(current, next)
    else Some(InvalidForwardTransition)
  }

  function KindError(current: Value, kind: CommandKind, recordedAt: Instant): Option<Error> {
    match kind
    case Ordinary(value) =>
      if ValueError(value, recordedAt).Some? then ValueError(value, recordedAt) else ForwardError(current, value)
    case Correct(value) =>
      if current.outcome.Pending? then Some(CorrectionRequiresRecordedOutcome) else ValueError(value, recordedAt)
  }

  function KindOf(current: Value, kind: CommandKind): TransitionKind {
    match kind
    case Ordinary(_) => if current.outcome.Pending? then Recorded else Progressed
    case Correct(value) => if value.outcome.Pending? then Reopened else Corrected
  }

  /** `apply_habit_occurrence_command`. */
  function Apply(current: Record, command: Command): Result<Transition, Error> {
    if RecordError(current).Some? then Err(RecordError(current).value)
    else if command.expectedRevision != current.revision then Err(RevisionConflict(command.expectedRevision, current.revision))
    else if command.recordedAt < current.updatedAt then Err(TimestampRegression)
    else
      var fault := KindError(current.value, command.kind, command.recordedAt);
      if fault.Some? then Err(fault.value)
      else if command.kind.value == current.value then Err(NoChange)
      else if current.revision >= U64_MAX then Err(RevisionOverflow)
      else
        var next := current.(revision := current.revision + 1, value := command.kind.value, updatedAt := command.recordedAt);
        Ok(Transition(KindOf(current.value, command.kind), current, next))
  }

  // ---- Which values and commands are accepted ----

  /** What a value recorded at `at` must be: a pending one is empty, progress fits the outcome, and
      everything recorded happened, at the latest then. */
  ghost predicate Recordable(v: Value, at: Instant) {
    && (v.quantity.Some? ==>
          && -1_000_000_000_000 <= v.quantity.value.amount <= 1_000_000_000_000
          && Legible(v.quantity.value.unit, 200) && Trimmed(v.quantity.value.unit))
    && (v.actualSeconds.Some? ==> v.actualSeconds.value <= 31_622_400)
    && (v.note.Some? ==> Legible(v.note.value, 10_000))
    && (v.outcome.Pending? ==> v == Value(Pending, 0, None, None, None, None))
    && (v.outcome.Partial? ==> 0 < v.progress < 10_000)
    && (v.outcome.Completed? ==> v.progress == 10_000)
    && (v.outcome.Skipped? ==> v.progress < 10_000)
    && (!v.outcome.Pending? ==> v.occurredAt.Some? && v.occurredAt.value <= at)
  }

  /** The complaint names something that is wrong with the value. */
  ghost predicate TrueOfValue(e: Error, v: Value, at: Instant) {
    match e
    case InvalidQuantity => v.quantity.Some? && !(-MAX_QUANTITY <= v.quantity.value.amount <= MAX_QUANTITY)
    case InvalidQuantityUnit => v.quantity.Some? && !(Legible(v.quantity.value.unit, MAX_UNIT_CHARS) && Trimmed(v.quantity.value.unit))
    case InvalidActualSeconds => v.actualSeconds.Some? && v.actualSeconds.value > MAX_ACTUAL_SECONDS
    case InvalidNote => v.note.Some? && !Legible(v.note.value, MAX_NOTE_CHARS)
    case PendingHasEvidence => v.outcome.Pending? && v.(occurredAt := None) != PENDING
    case InvalidPartialProgress => v.outcome.Partial? && !(0 < v.progress < BASIS_POINTS_SCALE)
    case InvalidCompletedProgress => v.outcome.Completed? && v.progress != BASIS_POINTS_SCALE
    case InvalidSkippedProgress => v.outcome.Skipped? && v.progress >= BASIS_POINTS_SCALE
    case PendingHasOccurredTime => v.outcome.Pending? && v.occurredAt.Some?
    case RecordedOutcomeMissingOccurredTime => !v.outcome.Pending? && v.occurredAt.None?
    case OccurredTimeInFuture => !v.outcome.Pending? && v.occurredAt.Some? && v.occurredAt.value > at
    case _ => false
  }

  lemma ValueAcceptedIff(v: Value, at: Instant)
    ensures ValueError(v, at).None? <==> Recordable(v, at)
    ensures ValueError(v, at).Some? ==> TrueOfValue(ValueError(v, at).value, v, at)
  {
    if v.quantity.Some? {
      ValidTextIff(v.quantity.value.unit, MAX_UNIT_CHARS);
    }
    if v.note.Some? {
      ValidTextIff(v.note.value, MAX_NOTE_CHARS);
    }
  }

  /** A record is about something, has been revised at least once, and does not run backwards. */
  lemma RecordValidIff(r: Record)
    ensures Valid(r) <==>
      r.habitId != NIL && r.occurrenceId != NIL && r.revision >= 1 && r.createdAt <= r.updatedAt && Recordable(r.value, r.updatedAt)
  {
    ValueAcceptedIff(r.value, r.updatedAt);
  }

  /** `next` may follow `current` as an ordinary record: the first record of a pending occurrence, or
      one that takes a partial occurrence forward without losing anything. */
  ghost predicate Advances(current: Value, next: Value) {
    && !next.outcome.Pending?
    && (current.outcome.Pending?
        || (current.outcome.Partial? && Preserves(current, next) && (next.outcome.Partial? ==> current.progress < next.progress)))
  }

  /** The complaint names what the step from `current` to `next` loses or breaks. */
  ghost predicate TrueOfStep(e: Error, current: Value, next: Value) {
    match e
    case InvalidForwardTransition => next.outcome.Pending? || current.outcome.Completed? || current.outcome.Skipped?
    case ProgressDidNotAdvance => next.outcome.Partial? && next.progress <= current.progress
    case ProgressRegressed => next.outcome.Skipped? && next.progress < current.progress
    case QuantityEvidenceRemoved => current.quantity.Some? && next.quantity.None?
    case QuantityUnitChanged => current.quantity.Some? && next.quantity.Some? && current.quantity.value.unit != next.quantity.value.unit
    case QuantityEvidenceChanged =>
      current.quantity.Some? && next.quantity.Some? && current.quantity.value.unit == next.quantity.value.unit && current.quantity != next.quantity
    case ActualSecondsEvidenceRemoved => current.actualSeconds.Some? && next.actualSeconds.None?
    case ActualSecondsRegressed =>
      current.actualSeconds.Some? && next.actualSeconds.Some? && next.actualSeconds.value < current.actualSeconds.value
    case NoteEvidenceRemoved => current.note.Some? && next.note.None?
    case NoteEvidenceChanged => current.note.Some? && next.note.Some? && current.note != next.note
    case _ => false
  }

  lemma EvidenceKeptIff(current: Value, next: Value)
    ensures EvidenceError(current, next).None? <==>
      && (current.quantity.Some? ==> next.quantity == current.quantity)
      && (current.note.Some? ==> next.note == current.note)
      && (current.actualSeconds.Some? ==> next.actualSeconds.Some? && current.actualSeconds.value <= next.actualSeconds.value)
    ensures EvidenceError(current, next).Some? ==> TrueOfStep(EvidenceError(current, next).value, current, next)
  {
  }

  lemma StepAcceptedIff(current: Value, next: Value, before: Instant, at: Instant)
    requires Recordable(current, before) && Recordable(next, at)
    ensures ForwardError(current, next).None? <==> Advances(current, next)
    ensures ForwardError(current, next).Some? ==> TrueOfStep(ForwardError(current, next).value, current, next)
  {
    EvidenceKeptIff(current, next);
  }

  /** The command fits the record as it is: it knows the revision and does not come before the last one. */
  predicate Timely(current: Record, command: Command) {
    Valid(current) && command.expectedRevision == current.revision && current.updatedAt <= command.recordedAt
  }

  /** What a command may do to a value: an ordinary one advances it, a correction replaces a recorded
      value by another one. */
  ghost predicate MayBecome(current: Value, command: Command) {
    && Recordable(command.kind.value, command.recordedAt)
    && match command.kind
       case Ordinary(next) => Advances(current, next)
       case Correct(next) => !current.outcome.Pending? && next != current
  }

  /** A command is accepted exactly when it is timely, a revision number is left, and it may make
      this value of the current one. */
  lemma CommandAcceptedIff(current: Record, command: Command)
    ensures Apply(current, command).Ok? <==> Timely(current, command) && MayBecome(current.value, command) && current.revision < U64_MAX
  {
    RecordValidIff(current);
    ValueAcceptedIff(command.kind.value, command.recordedAt);
    if Timely(current, command) && Recordable(command.kind.value, command.recordedAt) {
      StepAcceptedIff(current.value, command.kind.value, current.updatedAt, command.recordedAt);
    }
  }

  /** A transition is named after where it starts, where it ends and what was asked for. */
  lemma TransitionNamed(current: Record, command: Command)
    requires Apply(current, command).Ok?
    ensures var t := Apply(current, command).value; var next := t.current.value.outcome;
      && (t.kind.Recorded? <==> current.value.outcome.Pending?)
      && (t.kind.Reopened? <==> next.Pending?)
      && (t.kind.Progressed? <==> command.kind.Ordinary? && !current.value.outcome.Pending?)
      && (t.kind.Corrected? <==> command.kind.Correct? && !next.Pending?)
  {
    CommandAcceptedIff(current, command);
  }

  /** The complaint names something that is wrong with the record or the command. */
  ghost predicate TrueOfCommand(e: Error, current: Record, command: Command) {
    match e
    case InvalidHabitId => current.habitId == NIL
    case InvalidOccurrenceId => current.occurrenceId == NIL
    case InvalidRevision => current.revision == 0
    case TimestampRegression => current.updatedAt < current.createdAt || command.recordedAt < current.updatedAt
    case RevisionConflict(expected, actual) => expected == command.expectedRevision != current.revision == actual
    case RevisionOverflow => current.revision >= U64_MAX
    case CorrectionRequiresRecordedOutcome => command.kind.Correct? && current.value.outcome.Pending?
    case NoChange => command.kind.value == current.value
    case _ =>
      || TrueOfValue(e, current.value, current.updatedAt)
      || TrueOfValue(e, command.kind.value, command.recordedAt)
      || (command.kind.Ordinary? && TrueOfStep(e, current.value, command.kind.value))
  }

  /** Every refusal is true. A stale command learns first that it is stale, one from the past that it
      is, and only a command that could otherwise succeed learns that revision numbers ran out. */
  lemma RefusalIsTrue(current: Record, command: Command)
    requires Apply(current, command).Err?
    ensures TrueOfCommand(Apply(current, command).error, current, command)
    ensures Valid(current) && command.expectedRevision != current.revision ==> Apply(current, command).error.RevisionConflict?
    ensures Valid(current) && command.expectedRevision == current.revision && !Timely(current, command) ==>
      Apply(current, command).error.TimestampRegression?
    ensures Timely(current, command) && MayBecome(current.value, command) ==> Apply(current, command).error.RevisionOverflow?
  {
    RecordValidIff(current);
    ValueAcceptedIff(current.value, current.updatedAt);
    ValueAcceptedIff(command.kind.value, command.recordedAt);
    if Timely(current, command) && Recordable(command.kind.value, command.recordedAt) {
      StepAcceptedIff(current.value, command.kind.value, current.updatedAt, command.recordedAt);
    }
  }

  // ---- What every successful command keeps ----

  /** Success keeps the record valid, adds exactly one revision, never moves time back, stores
      the commanded value and leaves the identity alone. */
  lemma ApplyKeepsValid(current: Record, command: Command)
    ensures var r := Apply(current, command);
      r.Ok? ==>
        && r.value.previous == current && Valid(current) && Valid(r.value.current)
        && r.value.current.revision == current.revision + 1 <= U64_MAX
        && current.updatedAt <= r.value.current.updatedAt == command.recordedAt
        && r.value.current.value == command.kind.value != current.value
        && r.value.current == current.(revision := r.value.current.revision, value := command.kind.value, updatedAt := command.recordedAt)
  {
  }

  // ---- Runs of ordinary records ----

  /** How many further ordinary records a value still admits. */
  function Rank(v: Value): int {
    match v.outcome
    case Pending => BASIS_POINTS_SCALE
    case Partial => BASIS_POINTS_SCALE - v.progress
    case _ => 0
  }

  /** Everything a value has established survives in a later one. */
  predicate Preserves(earlier: Value, later: Value) {
    && earlier.progress <= later.progress
    && (earlier.quantity.Some? ==> later.quantity == earlier.quantity)
    && (earlier.note.Some? ==> later.note == earlier.note)
    && (earlier.actualSeconds.Some? ==> later.actualSeconds.Some? && earlier.actualSeconds.value <= later.actualSeconds.value)
    && (!earlier.outcome.Pending? ==> !later.outcome.Pending?)
  }

  lemma OrdinaryStep(current: Record, command: Command)
    requires command.kind.Ordinary? && Apply(current, command).Ok?
    ensures var next := Apply(current, command).value.current;
      && 0 <= Rank(next.value) < Rank(current.value) <= BASIS_POINTS_SCALE
      && Preserves(current.value, next.value)
  {
  }

  /** `records` is a run of successful ordinary commands. */
  ghost predicate OrdinaryRun(records: seq<Record>, commands: seq<Command>) {
    && |records| == |commands| + 1
    && forall i {:trigger commands[i]} :: 0 <= i < |commands| ==>
         && commands[i].kind.Ordinary?
         && Apply(records[i], commands[i]).Ok?
         && Apply(records[i], commands[i]).value.current == records[i + 1]
  }

  lemma {:induction false} RunFrom(records: seq<Record>, commands: seq<Command>, i: nat, j: nat)
    requires OrdinaryRun(records, commands) && i <= j < |records|
    ensures Preserves(records[i].value, records[j].value)
    ensures Rank(records[j].value) <= Rank(records[i].value) - (j - i)
    ensures records[j].revision == records[i].revision + (j - i)
    ensures records[i].updatedAt <= records[j].updatedAt
    decreases j - i
  {
    if i < j {
      RunFrom(records, commands, i, j - 1);
      OrdinaryStep(records[j - 1], commands[j - 1]);
      ApplyKeepsValid(records[j - 1], commands[j - 1]);
    }
  }

  /** Any run of ordinary records only adds evidence, never leaves a terminal outcome, and has at
      most 10,000 steps. */
  lemma OrdinaryRunBounded(records: seq<Record>, commands: seq<Command>)
    requires OrdinaryRun(records, commands)
    ensures |commands| <= BASIS_POINTS_SCALE
    ensures forall i, j :: 0 <= i <= j < |records| ==> Preserves(records[i].value, records[j].value)
    ensures forall i :: 0 <= i < |commands| ==> !records[i].value.outcome.Completed? && !records[i].value.outcome.Skipped?
  {
    forall i, j | 0 <= i <= j < |records| ensures Preserves(records[i].value, records[j].value) {
      RunFrom(records, commands, i, j);
    }
    forall i | 0 <= i < |commands| ensures !records[i].value.outcome.Completed? && !records[i].value.outcome.Skipped? {
      OrdinaryStep(records[i], commands[i]);
    }
    if |commands| > 0 {
      var n := |commands|;
      RunFrom(records, commands, 0, n - 1);
      OrdinaryStep(records[n - 1], commands[n - 1]);
      OrdinaryStep(records[0], commands[0]);
    }
  }

  // ---- Undo ----

  /** A value that could be recorded once can be recorded at any later time. */
  lemma ValidLater(v: Value, at: Instant, later: Instant)
    requires ValueError(v, at).None? && at <= later
    ensures ValueError(v, later).None?
  {
  }

  /** The command that takes back a transition: an ordinary record after a reopening, a
      correction otherwise. */
  function Undo(t: Transition, at: Instant): Command {
    Command(t.current.revision, at, if t.kind.Reopened? then Ordinary(t.previous.value) else Correct(t.previous.value))
  }

  /** Every transition can be undone at any later time, up to the last revision number. */
  lemma UndoRestores(current: Record, command: Command, at: Instant)
    requires Apply(current, command).Ok? && at >= command.recordedAt
    ensures var t := Apply(current, command).value;
      var undone := Apply(t.current, Undo(t, at));
      && (undone.Ok? <==> t.current.revision < U64_MAX)
      && (undone.Ok? ==> undone.value.current.value == current.value)
      && (undone.Err? ==> undone.error == RevisionOverflow)
  {
    ApplyKeepsValid(current, command);
    ValidLater(current.value, current.updatedAt, at);
  }

  const EXHAUSTED := Record(1, 2, 0, U64_MAX - 1, PENDING, 0, 0)

  const LAST_COMMAND := Command(U64_MAX - 1, 5, Ordinary(Value(Completed, BASIS_POINTS_SCALE, None, None, None, Some(5))))

  /** The last revision number cannot be undone: a record one short of it accepts one more command
      and then refuses to take it back. */
  lemma LastRevisionCannotBeUndone()
    ensures Apply(EXHAUSTED, LAST_COMMAND).Ok?
    ensures var t := Apply(EXHAUSTED, LAST_COMMAND).value; Apply(t.current, Undo(t, 5)) == Err(RevisionOverflow)
  {
    var completed := LAST_COMMAND.kind.value;
    assert ValueError(PENDING, 0).None? && ValueError(completed, 5).None?;
    assert ForwardError(PENDING, completed).None?;
    UndoRestores(EXHAUSTED, LAST_COMMAND, 5);
  }

  // ---- Pauses and the missed policy ----

  /** Half-open pause; without an end it is indefinite. */
  datatype Pause = Pause(start: Instant, end: Option<Instant>)
  {
    predicate Valid() {
      end.Some? ==> start < end.value
    }

    predicate Overlaps(windowStart: Instant, windowEnd: Instant) {
      start < windowEnd && (end.Some? ==> end.value > windowStart)
    }
  }

  /** A valid pause overlaps a window exactly when some instant lies in both half-open intervals. */
  lemma OverlapsIff(pause: Pause, windowStart: Instant, windowEnd: Instant)
    requires pause.Valid() && windowStart < windowEnd
    ensures pause.Overlaps(windowStart, windowEnd) <==> exists t :: InPauseAt(pause, t) && windowStart <= t < windowEnd
  {
    var latest := if pause.start < windowStart then windowStart else pause.start;
    if pause.Overlaps(windowStart, windowEnd) {
      assert InPauseAt(pause, latest);
    }
  }

  predicate InPauseAt(pause: Pause, t: Instant) {
    pause.start <= t && (pause.end.Some? ==> t < pause.end.value)
  }

  datatype PolicyError =
    | InvalidOccurrenceWindow
    | InvalidPauseInterval
    | InvalidOutcome(error: Error)
    | TimestampOverflow

  datatype MissedPolicyKind = Skip | Carry | ReduceFrequency | Ask

  datatype NoActionReason = WindowOpen | InPause | AlreadyCompleted | AlreadySkipped

  datatype Decision =
    | NoAction(reason: NoActionReason)
    | MarkSkipped(value: Value)
    | CarryForward(windowStart: Instant, windowEnd: Instant)
    | SkipNext(occurrences: nat)
    | RequestDecision

  predicate SomePauseOverlaps(pauses: seq<Pause>, windowStart: Instant, windowEnd: Instant) {
    exists i :: 0 <= i < |pauses| && pauses[i].Overlaps(windowStart, windowEnd)
  }

  /** `decide_habit_missed_behavior`. */
  function DecideMissed(policy: MissedPolicyKind, asOf: Instant, windowStart: Instant, windowEnd: Instant, value: Value, pauses: seq<Pause>)
    : Result<Decision, PolicyError>
  {
    if windowStart >= windowEnd then Err(InvalidOccurrenceWindow)
    else if ValueError(value, asOf).Some? then Err(InvalidOutcome(ValueError(value, asOf).value))
    else if exists i :: 0 <= i < |pauses| && !pauses[i].Valid() then Err(InvalidPauseInterval)
    else if value.outcome.Completed? then Ok(NoAction(AlreadyCompleted))
    else if value.outcome.Skipped? then Ok(NoAction(AlreadySkipped))
    else if SomePauseOverlaps(pauses, windowStart, windowEnd) then Ok(NoAction(InPause))
    else if asOf < windowEnd then Ok(NoAction(WindowOpen))
    else match policy
      case Skip =>
        Ok(MarkSkipped(value.(outcome := Skipped(MissedPolicy), occurredAt := Some(asOf))))
      case Carry =>
        if asOf + (windowEnd - windowStart) > MAX_INSTANT then Err(TimestampOverflow)
        else Ok(CarryForward(asOf, asOf + (windowEnd - windowStart)))
      case ReduceFrequency => Ok(SkipNext(1))
      case Ask => Ok(RequestDecision)
  }

  /** The value that the missed policy proposes is accepted as an ordinary record on the same
      record at that time, exactly when time has not moved back and a revision is left. It keeps
      all progress and evidence. */
  lemma MissedSkipIsRecordable(policy: MissedPolicyKind, asOf: Instant, windowStart: Instant, windowEnd: Instant, pauses: seq<Pause>, record: Record)
    requires Valid(record)
    requires var d := DecideMissed(policy, asOf, windowStart, windowEnd, record.value, pauses);
      d.Ok? && d.value.MarkSkipped?
    ensures var v := DecideMissed(policy, asOf, windowStart, windowEnd, record.value, pauses).value.value;
      var r := Apply(record, Command(record.revision, asOf, Ordinary(v)));
      && (r.Ok? <==> record.updatedAt <= asOf && record.revision < U64_MAX)
      && (r.Ok? ==> r.value.current.value == v && Preserves(record.value, v) && v.outcome == Skipped(MissedPolicy))
  {
  }

  /** Nothing has been settled, nothing paused the window, and it is over. */
  ghost predicate Missed(asOf: Instant, windowStart: Instant, windowEnd: Instant, value: Value, pauses: seq<Pause>) {
    && (value.outcome.Pending? || value.outcome.Partial?)
    && !SomePauseOverlaps(pauses, windowStart, windowEnd)
    && windowEnd <= asOf
  }

  /** What each decision says. */
  ghost predicate DecisionFits(d: Decision, policy: MissedPolicyKind, asOf: Instant, windowStart: Instant, windowEnd: Instant, value: Value, pauses: seq<Pause>) {
    match d
    case NoAction(AlreadyCompleted) => value.outcome.Completed?
    case NoAction(AlreadySkipped) => value.outcome.Skipped?
    case NoAction(InPause) => (value.outcome.Pending? || value.outcome.Partial?) && SomePauseOverlaps(pauses, windowStart, windowEnd)
    case NoAction(WindowOpen) =>
      (value.outcome.Pending? || value.outcome.Partial?) && !SomePauseOverlaps(pauses, windowStart, windowEnd) && asOf < windowEnd
    case MarkSkipped(v) =>
      && policy.Skip? && v.outcome == Skipped(MissedPolicy) && v.occurredAt == Some(asOf)
      && v.progress == value.progress && v.quantity == value.quantity && v.actualSeconds == value.actualSeconds && v.note == value.note
    case CarryForward(start, end) => policy.Carry? && start == asOf && end - start == windowEnd - windowStart
    case SkipNext(n) => policy.ReduceFrequency? && n == 1
    case RequestDecision => policy.Ask?
  }

  /** The missed policy acts exactly on occurrences that are missed, and each answer is what it says.
      It fails exactly on a bad window, value or pause, or where a carried window passes the last
      instant; the first of these is reported. */
  lemma MissedDecisionIff(policy: MissedPolicyKind, asOf: Instant, windowStart: Instant, windowEnd: Instant, value: Value, pauses: seq<Pause>)
    ensures var r := DecideMissed(policy, asOf, windowStart, windowEnd, value, pauses);
      var sound := windowStart < windowEnd && Recordable(value, asOf) && forall i :: 0 <= i < |pauses| ==> pauses[i].Valid();
      && (r.Ok? <==> sound && !(Missed(asOf, windowStart, windowEnd, value, pauses) && policy.Carry? && asOf + (windowEnd - windowStart) > MAX_INSTANT))
      && (r.Ok? ==> DecisionFits(r.value, policy, asOf, windowStart, windowEnd, value, pauses))
      && (r.Ok? ==> (!r.value.NoAction? <==> Missed(asOf, windowStart, windowEnd, value, pauses)))
      && (r.Err? && windowStart >= windowEnd ==> r.error.InvalidOccurrenceWindow?)
      && (r.Err? && windowStart < windowEnd && !Recordable(value, asOf) ==> r.error.InvalidOutcome? && TrueOfValue(r.error.error, value, asOf))
      && (r.Err? && windowStart < windowEnd && Recordable(value, asOf) && !sound ==> r.error.InvalidPauseInterval?)
      && (r.Err? && sound ==> r.error.TimestampOverflow?)
  {
    ValueAcceptedIff(value, asOf);
  }

  const RECORDED_LATE := Record(1, 2, 0, 1, PENDING, 0, 9)

  /** A policy decided for an instant before the record was last touched proposes a skip that the
      record refuses. */
  lemma EarlierDecisionIsRefused()
    ensures DecideMissed(Skip, 5, 0, 4, RECORDED_LATE.value, []).Ok?
    ensures var d := DecideMissed(Skip, 5, 0, 4, RECORDED_LATE.value, []).value;
      d.MarkSkipped? && Apply(RECORDED_LATE, Command(1, 5, Ordinary(d.value))) == Err(TimestampRegression)
  {
    assert ValueError(PENDING, 5).None? && ValueError(PENDING, 9).None?;
  }
}
