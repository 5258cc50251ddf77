/** The canonical spelling of recurrence rules, and the laws that make it canonical. */
module RecurrenceCanonical {
  import opened Base
  import opened Calendar
  import opened Digits
  import opened Text
  import opened Folds
  import opened RecurrenceRules

  /** The rules that a parse can produce. */
  predicate WellFormed(rule: Rule) {
    && 1 <= rule.interval <= MAX_INTERVAL
    && (forall d :: d in rule.byMonthDay ==> IsMonthDay(d))
    && (rule.frequency.Weekly? ==> rule.byMonthDay == {})
    && match rule.termination
       case Count(n) => 1 <= n <= RecurrenceRules.MAX_OCCURRENCES
       case Until(d) => d.Valid() && 1 <= d.year <= 9999
  }

  predicate ValidField(f: Field) {
    match f
    case Freq(_) => true
    case Interval(n) => 1 <= n <= MAX_INTERVAL
    case ByDay(days) => days != {}
    case ByMonthDay(days) => days != {} && forall d :: d in days ==> IsMonthDay(d)
    case CountOf(n) => 1 <= n <= RecurrenceRules.MAX_OCCURRENCES
    case UntilDate(d) => d.Valid() && 1 <= d.year <= 9999
  }

  // ---- Sets in order ----

  const DAYS := [Monday, Tuesday, Wednesday, Thursday, Friday, Saturday, Sunday]

  const MONTH_DAYS := seq(63, i => i - 31)

  /** The members of `chosen` in the order of `all`. */
  function Pick<T(==)>(all: seq<T>, chosen: set<T>): seq<T> {
    if all == [] then []
    else
      var rest := Pick(all[..|all| - 1], chosen);
      if all[|all| - 1] in chosen then rest + [all[|all| - 1]] else rest
  }

  lemma {:induction false} PickElements<T>(all: seq<T>, chosen: set<T>)
    requires Distinct(all)
    ensures Elements(Pick(all, chosen)) == Elements(all) * chosen
    ensures Distinct(Pick(all, chosen)) && |Pick(all, chosen)| <= |all|
  {
    if all != [] {
      var rest, last := all[..|all| - 1], all[|all| - 1];
      assert all == rest + [last];
      ElementsAppend(rest, last);
      PickElements(rest, chosen);
      if last in chosen {
        var picked := Pick(rest, chosen);
        ElementsAppend(picked, last);
        assert last !in Elements(rest);
        forall i | 0 <= i < |picked| ensures picked[i] != last {
          assert picked[i] in Elements(picked);
        }
      }
    }
  }

  lemma DaysComplete(chosen: set<DayOfWeek>)
    ensures Distinct(DAYS) && Elements(DAYS) * chosen == chosen
  {
    forall d ensures d in Elements(DAYS) {
      assert DAYS[WeekdayIndex(d)] == d;
    }
  }

  lemma MonthDaysComplete(chosen: set<int>)
    requires forall d :: d in chosen ==> IsMonthDay(d)
    ensures Distinct(MONTH_DAYS) && |MONTH_DAYS| == 63 && Elements(MONTH_DAYS) * chosen == chosen
  {
    forall d | d in chosen ensures d in Elements(MONTH_DAYS) {
      assert MONTH_DAYS[d + 31] == d;
    }
  }

  // ---- Printing ----

  function PrintMonthDay(day: int): string {
    if day < 0 then "-" + Print(-day) else Print(day)
  }

  function PrintDate(d: Date): string
    requires d.Valid() && d.year >= 0
  {
    Padded(d.year, 4) + Padded(d.month, 2) + Padded(d.day, 2)
  }

  function FrequencyName(f: Frequency): string {
    match f
    case Daily => "DAILY"
    case Weekly => "WEEKLY"
    case Monthly => "MONTHLY"
  }

  function DayTokens(days: set<DayOfWeek>): seq<string> {
    Mapped(DayName, Pick(DAYS, days))
  }

  function MonthDayTokens(days: set<int>): seq<string> {
    Mapped(PrintMonthDay, Pick(MONTH_DAYS, days))
  }

  lemma TokensNonempty(f: Field)
    requires ValidField(f)
    ensures f.ByDay? ==> DayTokens(f.days) != []
    ensures f.ByMonthDay? ==> MonthDayTokens(f.monthDays) != []
  {
    if f.ByDay? {
      DaysComplete(f.days);
      PickElements(DAYS, f.days);
    } else if f.ByMonthDay? {
      MonthDaysComplete(f.monthDays);
      PickElements(MONTH_DAYS, f.monthDays);
    }
  }

  function FieldValue(f: Field): string
    requires ValidField(f)
  {
    TokensNonempty(f);
    match f
    case Freq(x) => FrequencyName(x)
    case Interval(n) => Print(n)
    case ByDay(days) => Join(DayTokens(days), ',')
    case ByMonthDay(days) => Join(MonthDayTokens(days), ',')
    case CountOf(n) => Print(n)
    case UntilDate(d) => PrintDate(d)
  }

  function PrintField(f: Field): string
    requires ValidField(f)
  {
    FieldName(f) + "=" + FieldValue(f)
  }

  // ---- Plain text survives reading ----

  /** Upper-case, printable, and free of both separators of parts. */
  predicate PlainChar(c: char) {
    IsGraphic(c) && c != ';' && c != '=' && !('a' <= c <= 'z')
  }

  predicate Plain(s: string) {
    forall i :: 0 <= i < |s| ==> PlainChar(s[i])
  }

  lemma PlainUpper(s: string)
    requires Plain(s)
    ensures Upper(s) == s && ';' !in s && '=' !in s && AllGraphic(s)
  {
  }

  lemma DigitsPlain(s: string)
    requires AllDigits(s)
    ensures Plain(s) && ',' !in s && '-' !in s
  {
  }

  lemma {:induction false} JoinPlain(pieces: seq<string>)
    requires pieces != [] && forall i :: 0 <= i < |pieces| ==> Plain(pieces[i])
    ensures Plain(Join(pieces, ','))
  {
    if |pieces| > 1 {
      JoinPlain(pieces[1..]);
    }
  }

  lemma {:induction false} JoinLength(pieces: seq<string>, c: char, k: nat)
    requires pieces != [] && forall i :: 0 <= i < |pieces| ==> |pieces[i]| <= k
    ensures |Join(pieces, c)| <= |pieces| * (k + 1)
  {
    if |pieces| > 1 {
      JoinLength(pieces[1..], c, k);
      assert |pieces| * (k + 1) == (|pieces| - 1) * (k + 1) + (k + 1);
    }
  }

  lemma {:induction false} JoinNonempty(pieces: seq<string>, c: char)
    requires pieces != [] && forall i :: 0 <= i < |pieces| ==> pieces[i] != ""
    ensures Join(pieces, c) != ""
  {
  }

  // ---- Lists read back ----

  lemma DayReads(day: DayOfWeek)
    ensures ReadDay(DayName(day)) == Ok(day) && Plain(DayName(day)) && ',' !in DayName(day) && |DayName(day)| == 2
  {
  }

  lemma MonthDayReads(day: int)
    requires IsMonthDay(day)
    ensures ReadMonthDay(PrintMonthDay(day)) == Ok(day)
    ensures Plain(PrintMonthDay(day)) && ',' !in PrintMonthDay(day) && 0 < |PrintMonthDay(day)| <= 3
  {
    var n := if day < 0 then -day else day;
    PrintReads(n);
    assert Pow10(2) == 100;
    PrintLength(n, 2);
    DigitsPlain(Print(n));
    if day < 0 {
      assert ("-" + Print(n))[1..] == Print(n);
    }
  }

  lemma {:induction false} DaysCollected(days: seq<DayOfWeek>)
    requires Distinct(days)
    ensures Fold({}, Mapped(DayName, days), CollectDay) == Ok(Elements(days))
  {
    if days != [] {
      var rest, last := days[..|days| - 1], days[|days| - 1];
      assert days == rest + [last];
      DaysCollected(rest);
      DayReads(last);
      MappedAppend(DayName, rest, last);
      FoldAppend({}, Mapped(DayName, rest), DayName(last), CollectDay);
      ElementsAppend(rest, last);
    } else {
      assert Elements(days) == {};
    }
  }

  lemma {:induction false} MonthDaysCollected(days: seq<int>)
    requires Distinct(days) && forall i :: 0 <= i < |days| ==> IsMonthDay(days[i])
    ensures Fold({}, Mapped(PrintMonthDay, days), CollectMonthDay) == Ok(Elements(days))
  {
    if days != [] {
      var rest, last := days[..|days| - 1], days[|days| - 1];
      assert days == rest + [last];
      MonthDaysCollected(rest);
      MonthDayReads(last);
      MappedAppend(PrintMonthDay, rest, last);
      FoldAppend({}, Mapped(PrintMonthDay, rest), PrintMonthDay(last), CollectMonthDay);
      ElementsAppend(rest, last);
    } else {
      assert Elements(days) == {};
    }
  }

  // ---- Values read back ----

  /** The value is plain text that reads as `f` under the name of `f`. */
  ghost predicate Reads(f: Field)
    requires ValidField(f)
  {
    Plain(FieldValue(f)) && FieldValue(f) != "" && ReadField(FieldName(f), FieldValue(f)) == Ok(f)
  }

  /** A bound on the length of the printed field. */
  function Room(f: Field): nat {
    match f
    case ByMonthDay(_) => 263
    case _ => 30
  }

  lemma FrequencyReads(f: Frequency)
    ensures Reads(Freq(f)) && |PrintField(Freq(f))| <= 30
  {
  }

  lemma NumberReads(n: nat, max: nat, error: Error)
    requires 1 <= n <= max <= 10_000
    ensures ReadNumber(Print(n), max, error) == Ok(n) && Plain(Print(n)) && 0 < |Print(n)| <= 5
  {
    PrintReads(n);
    assert Pow10(2) == 100;
    assert Pow10(5) == 100 * Pow10(3);
    PrintLength(n, 5);
    DigitsPlain(Print(n));
  }

  lemma TwoDigits(n: nat)
    requires n < 100
    ensures Value(Padded(n, 2)) == n
  {
    assert Pow10(2) == 100;
    PaddedReads(n, 2);
  }

  lemma FourDigits(n: nat)
    requires n < 10_000
    ensures Value(Padded(n, 4)) == n
  {
    assert Pow10(2) == 100;
    assert Pow10(4) == 100 * Pow10(2);
    PaddedReads(n, 4);
  }

  lemma DateReads(d: Date)
    requires d.Valid() && 1 <= d.year <= 9999
    ensures ReadUntil(PrintDate(d)) == Ok(d) && Plain(PrintDate(d)) && |PrintDate(d)| == 8
  {
    DateSlices(Padded(d.year, 4), Padded(d.month, 2), Padded(d.day, 2));
    FourDigits(d.year);
    TwoDigits(d.month);
    TwoDigits(d.day);
    DigitsPlain(PrintDate(d));
  }

  lemma DateSlices(year: string, month: string, day: string)
    requires |year| == 4 && |month| == 2 && |day| == 2 && AllDigits(year) && AllDigits(month) && AllDigits(day)
    ensures var s := year + month + day;
      |s| == 8 && AllDigits(s) && s[0..4] == year && s[4..6] == month && s[6..8] == day
  {
  }

  ghost predicate GoodTokens(tokens: seq<string>, n: nat, k: nat) {
    && 0 < |tokens| <= n
    && forall i :: 0 <= i < |tokens| ==> Plain(tokens[i]) && ',' !in tokens[i] && 0 < |tokens[i]| <= k
  }

  lemma ProductGrows(a: nat, b: nat, c: nat)
    requires a <= b
    ensures a * c <= b * c
  {
  }

  lemma TokensRead(tokens: seq<string>, n: nat, k: nat)
    requires GoodTokens(tokens, n, k)
    ensures Split(Join(tokens, ','), ',') == tokens
    ensures Plain(Join(tokens, ',')) && 0 < |Join(tokens, ',')| <= n * (k + 1)
  {
    assert Free(tokens, ',');
    SplitJoin(tokens, ',');
    JoinPlain(tokens);
    JoinLength(tokens, ',', k);
    JoinNonempty(tokens, ',');
    ProductGrows(|tokens|, n, k + 1);
  }

  lemma DayTokensRead(days: set<DayOfWeek>)
    requires days != {}
    ensures GoodTokens(DayTokens(days), 7, 2) && Fold({}, DayTokens(days), CollectDay) == Ok(days)
  {
    var picked := Pick(DAYS, days);
    TokensNonempty(ByDay(days));
    DaysComplete(days);
    PickElements(DAYS, days);
    forall i | 0 <= i < |picked| ensures var t := DayName(picked[i]); Plain(t) && ',' !in t && |t| == 2 {
      DayReads(picked[i]);
    }
    DaysCollected(picked);
  }

  lemma MonthDayTokensRead(days: set<int>)
    requires ValidField(ByMonthDay(days))
    ensures GoodTokens(MonthDayTokens(days), 63, 3) && Fold({}, MonthDayTokens(days), CollectMonthDay) == Ok(days)
  {
    var picked := Pick(MONTH_DAYS, days);
    TokensNonempty(ByMonthDay(days));
    MonthDaysComplete(days);
    PickElements(MONTH_DAYS, days);
    forall i | 0 <= i < |picked|
      ensures IsMonthDay(picked[i]) && var t := PrintMonthDay(picked[i]); Plain(t) && ',' !in t && 0 < |t| <= 3
    {
      assert picked[i] in Elements(picked);
      MonthDayReads(picked[i]);
    }
    MonthDaysCollected(picked);
  }

  lemma ByDayReads(days: set<DayOfWeek>)
    requires days != {}
    ensures Reads(ByDay(days)) && |PrintField(ByDay(days))| <= 30
  {
    DayTokensRead(days);
    TokensRead(DayTokens(days), 7, 2);
  }

  lemma ByMonthDayReads(days: set<int>)
    requires ValidField(ByMonthDay(days))
    ensures Reads(ByMonthDay(days)) && |PrintField(ByMonthDay(days))| <= 263
  {
    MonthDayTokensRead(days);
    TokensRead(MonthDayTokens(days), 63, 3);
  }

  lemma FieldReads(f: Field)
    requires ValidField(f)
    ensures Reads(f) && |PrintField(f)| <= Room(f)
  {
    match f
    case Freq(x) => FrequencyReads(x);
    case Interval(n) => NumberReads(n, MAX_INTERVAL, InvalidInterval);
    case ByDay(days) => ByDayReads(days);
    case ByMonthDay(days) => ByMonthDayReads(days);
    case CountOf(n) => NumberReads(n, RecurrenceRules.MAX_OCCURRENCES, InvalidCount);
    case UntilDate(d) => DateReads(d);
  }

  lemma NamePlain(f: Field)
    ensures Plain(FieldName(f)) && FieldName(f) != ""
  {
  }

  /** A printed field is read as an assignment of that field, unless its name came before. */
  lemma StepReads(d: Draft, f: Field)
    requires ValidField(f) && FieldName(f) !in d.seen
    ensures Step(d, PrintField(f)) == Ok(Assign(d, f))
    ensures AllGraphic(PrintField(f)) && ';' !in PrintField(f)
  {
    var name, value := FieldName(f), FieldValue(f);
    FieldReads(f);
    NamePlain(f);
    PlainUpper(name);
    PlainUpper(value);
    assert PrintField(f) == name + ['='] + value;
    SplitOnceAt(name, value, '=');
  }

  // ---- The canonical spelling ----

  ghost predicate AllValid(fields: seq<Field>) {
    forall i :: 0 <= i < |fields| ==> ValidField(fields[i])
  }

  /** How a valid field is spelled; other fields do not occur in a rule. */
  ghost function Spell(): Field -> string {
    f => if ValidField(f) then PrintField(f) else ""
  }

  ghost function PrintAll(fields: seq<Field>): (parts: seq<string>)
    ensures |parts| == |fields|
  {
    Mapped(Spell(), fields)
  }

  ghost function AssignAll(fields: seq<Field>): Draft {
    Accumulate(BLANK, fields, Assign)
  }

  function TerminationField(t: Termination): Field {
    match t
    case Count(n) => CountOf(n)
    case Until(d) => UntilDate(d)
  }

  ghost function Optional(f: Field, present: bool): seq<Field> {
    if present then [f] else []
  }

  ghost function HeadFields(rule: Rule): seq<Field> {
    [Freq(rule.frequency), Interval(rule.interval)]
  }

  ghost function DayFields(rule: Rule): seq<Field> {
    HeadFields(rule) + Optional(ByDay(rule.byDay), rule.byDay != {})
  }

  ghost function MonthDayFields(rule: Rule): seq<Field> {
    DayFields(rule) + Optional(ByMonthDay(rule.byMonthDay), rule.byMonthDay != {})
  }

  /** The parts a rule needs, in canonical order; an interval of one is written out. */
  ghost function Fields(rule: Rule): seq<Field> {
    MonthDayFields(rule) + [TerminationField(rule.termination)]
  }

  lemma FieldsValid(rule: Rule)
    requires WellFormed(rule)
    ensures AllValid(HeadFields(rule)) && AllValid(DayFields(rule)) && AllValid(MonthDayFields(rule)) && AllValid(Fields(rule))
  {
  }

  ghost function Canonical(rule: Rule): string {
    Spelling(Spell(), Fields(rule))
  }

  /** The spellings of the parts, joined. */
  ghost function Spelling<A>(spell: A -> string, parts: seq<A>): string
    requires parts != []
  {
    Join(Mapped(spell, parts), ';')
  }

  // ---- Fields with distinct names are all assigned ----

  function Rank(f: Field): nat {
    match f
    case Freq(_) => 0
    case Interval(_) => 1
    case ByDay(_) => 2
    case ByMonthDay(_) => 3
    case CountOf(_) => 4
    case UntilDate(_) => 5
  }

  lemma NamesDiffer(f: Field, g: Field)
    ensures FieldName(f) == FieldName(g) <==> Rank(f) == Rank(g)
  {
    assert FieldName(f)[0] in "FIBCU" && FieldName(g)[0] in "FIBCU";
  }

  ghost predicate Ascending(fields: seq<Field>) {
    forall i, j :: 0 <= i < j < |fields| ==> Rank(fields[i]) < Rank(fields[j])
  }

  lemma {:induction false} NotSeen(fields: seq<Field>, f: Field)
    requires forall i :: 0 <= i < |fields| ==> Rank(fields[i]) != Rank(f)
    ensures FieldName(f) !in AssignAll(fields).seen
  {
    if fields != [] {
      var last := fields[|fields| - 1];
      NotSeen(fields[..|fields| - 1], f);
      NamesDiffer(f, last);
    }
  }

  predicate Readable(part: string) {
    AllGraphic(part) && ';' !in part
  }

  ghost predicate AllReadable(parts: seq<string>) {
    forall i :: 0 <= i < |parts| ==> Readable(parts[i])
  }

  lemma FieldTaken(rest: seq<Field>, last: Field)
    requires ValidField(last) && forall i :: 0 <= i < |rest| ==> Rank(rest[i]) < Rank(last)
    ensures Step(AssignAll(rest), Spell()(last)) == Ok(Assign(AssignAll(rest), last)) && Readable(Spell()(last))
  {
    NotSeen(rest, last);
    StepReads(AssignAll(rest), last);
  }

  lemma FieldsRead(fields: seq<Field>)
    requires AllValid(fields) && Ascending(fields)
    ensures Fold(BLANK, PrintAll(fields), Step) == Ok(AssignAll(fields)) && AllReadable(PrintAll(fields))
  {
    forall i {:trigger fields[i]} | 0 <= i < |fields|
      ensures Step(AssignAll(fields[..i]), Spell()(fields[i])) == Ok(Assign(AssignAll(fields[..i]), fields[i]))
      ensures Readable(Spell()(fields[i]))
    {
      FieldTaken(fields[..i], fields[i]);
    }
    FoldTaken(BLANK, fields, Spell(), Assign, Step);
  }

  lemma {:induction false} JoinGraphic(pieces: seq<string>)
    requires pieces != [] && forall i :: 0 <= i < |pieces| ==> AllGraphic(pieces[i])
    ensures AllGraphic(Join(pieces, ';'))
  {
    if |pieces| > 1 {
      JoinGraphic(pieces[1..]);
    }
  }

  lemma AssignAppend(fields: seq<Field>, f: Field)
    ensures AssignAll(fields + [f]) == Assign(AssignAll(fields), f)
  {
    AccumulateAppend(BLANK, fields, f, Assign);
  }

  lemma AssignOptional(fields: seq<Field>, f: Field, present: bool)
    ensures AssignAll(fields + Optional(f, present)) == if present then Assign(AssignAll(fields), f) else AssignAll(fields)
  {
    if present {
      AssignAppend(fields, f);
    } else {
      assert fields + Optional(f, present) == fields;
    }
  }

  ghost function AssignIf(d: Draft, f: Field, present: bool): Draft {
    if present then Assign(d, f) else d
  }

  ghost function DraftOf(rule: Rule): Draft {
    var head := Assign(Assign(BLANK, Freq(rule.frequency)), Interval(rule.interval));
    var days := AssignIf(head, ByDay(rule.byDay), rule.byDay != {});
    var monthDays := AssignIf(days, ByMonthDay(rule.byMonthDay), rule.byMonthDay != {});
    Assign(monthDays, TerminationField(rule.termination))
  }

  lemma AssignHead(f: Field, g: Field)
    ensures AssignAll([f, g]) == Assign(Assign(BLANK, f), g)
  {
    AssignAppend([], f);
    assert [] + [f] == [f];
    AssignAppend([f], g);
    assert [f] + [g] == [f, g];
  }

  lemma FieldsAssigned(rule: Rule)
    ensures AssignAll(Fields(rule)) == DraftOf(rule)
  {
    AssignHead(Freq(rule.frequency), Interval(rule.interval));
    AssignOptional(HeadFields(rule), ByDay(rule.byDay), rule.byDay != {});
    AssignOptional(DayFields(rule), ByMonthDay(rule.byMonthDay), rule.byMonthDay != {});
    AssignAppend(MonthDayFields(rule), TerminationField(rule.termination));
  }

  ghost predicate Holds(d: Draft, rule: Rule) {
    && d.frequency == Some(rule.frequency) && d.interval == Some(rule.interval)
    && d.byDay == (if rule.byDay != {} then Some(rule.byDay) else None)
    && d.byMonthDay == (if rule.byMonthDay != {} then Some(rule.byMonthDay) else None)
    && d.count == (if rule.termination.Count? then Some(rule.termination.count) else None)
    && d.until == (if rule.termination.Until? then Some(rule.termination.date) else None)
  }

  lemma DraftHolds(rule: Rule)
    ensures Holds(DraftOf(rule), rule)
  {
  }

  lemma HeldFinishes(d: Draft, rule: Rule)
    requires Holds(d, rule) && WellFormed(rule)
    ensures Finish(d) == Ok(rule)
  {
  }

  /** The fields of a rule, once assigned, make up the rule again. */
  lemma FieldsFinish(rule: Rule)
    requires WellFormed(rule)
    ensures Finish(AssignAll(Fields(rule))) == Ok(rule)
  {
    FieldsAssigned(rule);
    DraftHolds(rule);
    HeldFinishes(DraftOf(rule), rule);
  }

  // ---- The text, part by part ----

  ghost function Tail<A>(spell: A -> string, part: A, present: bool): string {
    if present then ";" + spell(part) else ""
  }

  lemma TextAppend<A>(spell: A -> string, parts: seq<A>, part: A)
    requires parts != []
    ensures Spelling(spell, parts + [part]) == Spelling(spell, parts) + Tail(spell, part, true)
  {
    MappedAppend(spell, parts, part);
    JoinSuffix(Mapped(spell, parts), spell(part), ';');
  }

  lemma TextOptional(spell: Field -> string, parts: seq<Field>, part: Field, present: bool)
    requires parts != []
    ensures Spelling(spell, parts + Optional(part, present)) == Spelling(spell, parts) + Tail(spell, part, present)
  {
    if present {
      TextAppend(spell, parts, part);
    } else {
      assert parts + Optional(part, present) == parts;
    }
  }

  lemma TextHead<A>(spell: A -> string, a: A, b: A)
    ensures Spelling(spell, [a, b]) == spell(a) + Tail(spell, b, true)
  {
    assert Mapped(spell, [a]) == [spell(a)];
    TextAppend(spell, [a], b);
    assert [a] + [b] == [a, b];
  }

  /** The spelling written out from left to right. */
  ghost function Written(spell: Field -> string, rule: Rule): string {
    spell(Freq(rule.frequency)) + Tail(spell, Interval(rule.interval), true)
    + Tail(spell, ByDay(rule.byDay), rule.byDay != {})
    + Tail(spell, ByMonthDay(rule.byMonthDay), rule.byMonthDay != {})
    + Tail(spell, TerminationField(rule.termination), true)
  }

  /** Joining the parts and writing them one after another give the same text, however a part is spelled. */
  lemma TextWritten(spell: Field -> string, rule: Rule)
    ensures Spelling(spell, Fields(rule)) == Written(spell, rule)
  {
    TextHead(spell, Freq(rule.frequency), Interval(rule.interval));
    TextOptional(spell, HeadFields(rule), ByDay(rule.byDay), rule.byDay != {});
    TextOptional(spell, DayFields(rule), ByMonthDay(rule.byMonthDay), rule.byMonthDay != {});
    TextAppend(spell, MonthDayFields(rule), TerminationField(rule.termination));
  }

  lemma CanonicalWritten(rule: Rule)
    ensures Canonical(rule) == Written(Spell(), rule)
  {
    TextWritten(Spell(), rule);
  }

  lemma Spelled(f: Field)
    requires ValidField(f)
    ensures Spell()(f) == PrintField(f) && |Spell()(f)| <= Room(f) && |Tail(Spell(), f, true)| <= Room(f) + 1
  {
    FieldReads(f);
  }

  /** Every canonical spelling is far below the byte limit. */
  lemma CanonicalFits(rule: Rule)
    requires WellFormed(rule)
    ensures 0 < |Canonical(rule)| <= 387 < MAX_BYTES && Canonical(rule)[0] == 'F'
  {
    CanonicalWritten(rule);
    FieldsValid(rule);
    var first := Spell()(Freq(rule.frequency));
    Spelled(Freq(rule.frequency));
    assert first[0] == 'F';
    Spelled(Interval(rule.interval));
    if rule.byDay != {} {
      Spelled(ByDay(rule.byDay));
    }
    if rule.byMonthDay != {} {
      Spelled(ByMonthDay(rule.byMonthDay));
    }
    Spelled(TerminationField(rule.termination));
  }

  lemma NoPrefix(text: string)
    requires text != "" && text[0] == 'F'
    ensures !HasPrefix(text)
  {
    if |text| >= 6 {
      assert Upper(text[..6])[0] == 'F';
    }
  }

  lemma PartsRead(fields: seq<Field>)
    requires fields != [] && AllValid(fields) && Ascending(fields)
    ensures Fold(BLANK, Split(Join(PrintAll(fields), ';'), ';'), Step) == Ok(AssignAll(fields))
    ensures AllGraphic(Join(PrintAll(fields), ';'))
  {
    FieldsRead(fields);
    assert AllReadable(PrintAll(fields));
    SplitJoin(PrintAll(fields), ';');
    JoinGraphic(PrintAll(fields));
  }

  lemma FieldsAscend(rule: Rule)
    ensures Ascending(Fields(rule))
  {
  }

  lemma CanonicalBody(rule: Rule)
    requires WellFormed(rule)
    ensures AllGraphic(Canonical(rule))
    ensures Canonical(rule) != "" ==> ParseBody(Canonical(rule)) == Ok(rule)
  {
    FieldsValid(rule);
    FieldsAscend(rule);
    PartsRead(Fields(rule));
    FieldsFinish(rule);
  }

  /** Parsing the canonical spelling of a rule gives the rule back. */
  lemma CanonicalParses(rule: Rule)
    requires WellFormed(rule)
    ensures Parse(Canonical(rule)) == Ok(rule)
  {
    CanonicalBody(rule);
    CanonicalFits(rule);
    NoPrefix(Canonical(rule));
  }

  // ---- Parsed rules are well formed ----

  ghost predicate GoodDraft(d: Draft) {
    && (d.interval.Some? ==> ValidField(Interval(d.interval.value)))
    && (d.byMonthDay.Some? ==> ValidField(ByMonthDay(d.byMonthDay.value)))
    && (d.count.Some? ==> ValidField(CountOf(d.count.value)))
    && (d.until.Some? ==> ValidField(UntilDate(d.until.value)))
  }

  lemma {:induction false} MonthDaysValid(tokens: seq<string>)
    requires Fold({}, tokens, CollectMonthDay).Ok?
    ensures forall d :: d in Fold({}, tokens, CollectMonthDay).value ==> IsMonthDay(d)
    ensures tokens != [] ==> Fold({}, tokens, CollectMonthDay).value != {}
  {
    if tokens != [] {
      MonthDaysValid(tokens[..|tokens| - 1]);
    }
  }

  lemma UntilValid(value: string)
    requires ReadUntil(value).Ok?
    ensures ValidField(UntilDate(ReadUntil(value).value))
  {
    ValueBelow(value[0..4]);
    assert Pow10(2) == 100;
    assert Pow10(4) == 100 * Pow10(2);
  }

  lemma ReadFieldValid(name: string, value: string)
    requires ReadField(name, value).Ok? && !ReadField(name, value).value.ByDay?
    ensures ValidField(ReadField(name, value).value)
  {
    if name == "BYMONTHDAY" {
      MonthDaysValid(Split(value, ','));
    } else if name == "UNTIL" {
      UntilValid(value);
    }
  }

  lemma AssignGood(d: Draft, f: Field)
    requires GoodDraft(d) && (f.ByDay? || ValidField(f))
    ensures GoodDraft(Assign(d, f))
  {
  }

  lemma StepGood(d: Draft, part: string)
    requires GoodDraft(d) && Step(d, part).Ok?
    ensures GoodDraft(Step(d, part).value)
  {
    var pair := ReadPart(part).value;
    var f := ReadField(pair.0, pair.1).value;
    if !f.ByDay? {
      ReadFieldValid(pair.0, pair.1);
    }
    AssignGood(d, f);
  }

  lemma {:induction false} PartsGood(parts: seq<string>)
    requires Fold(BLANK, parts, Step).Ok?
    ensures GoodDraft(Fold(BLANK, parts, Step).value)
  {
    if parts != [] {
      var rest := parts[..|parts| - 1];
      PartsGood(rest);
      StepGood(Fold(BLANK, rest, Step).value, parts[|parts| - 1]);
    }
  }

  lemma FinishWellFormed(d: Draft)
    requires GoodDraft(d) && Finish(d).Ok?
    ensures WellFormed(Finish(d).value)
  {
  }

  lemma ParsedWellFormed(text: string)
    requires Parse(text).Ok?
    ensures WellFormed(Parse(text).value)
  {
    var parts := Split(Body(text), ';');
    PartsGood(parts);
    FinishWellFormed(Fold(BLANK, parts, Step).value);
  }

  // ---- What canonicalisation means ----

  /** Canonicalising is idempotent and keeps the meaning. */
  lemma CanonicalIdempotent(text: string)
    requires Parse(text).Ok?
    ensures WellFormed(Parse(text).value)
    ensures Parse(Canonical(Parse(text).value)) == Parse(text)
  {
    ParsedWellFormed(text);
    CanonicalParses(Parse(text).value);
  }

  /** Two accepted texts have the same canonical spelling exactly when they mean the same rule. */
  lemma CanonicalInjective(a: string, b: string)
    requires Parse(a).Ok? && Parse(b).Ok?
    ensures WellFormed(Parse(a).value) && WellFormed(Parse(b).value)
    ensures Canonical(Parse(a).value) == Canonical(Parse(b).value) <==> Parse(a) == Parse(b)
  {
    CanonicalIdempotent(a);
    CanonicalIdempotent(b);
  }

  /** The rules that some text denotes are exactly the well-formed ones. */
  lemma WellFormedIffParsed(rule: Rule)
    ensures WellFormed(rule) <==> exists text :: Parse(text) == Ok(rule)
  {
    if WellFormed(rule) {
      CanonicalParses(rule);
    }
    forall text | Parse(text) == Ok(rule) ensures WellFormed(rule) {
      ParsedWellFormed(text);
    }
  }

  // ---- The printer's loops ----

  method WriteTokens(result: string, tokens: seq<string>) returns (text: string)
    requires tokens != []
    ensures text == result + Join(tokens, ',')
  {
    text := result + tokens[0];
    for i := 1 to |tokens|
      invariant text == result + Join(tokens[..i], ',')
    {
      assert tokens[..i + 1] == tokens[..i] + [tokens[i]];
      JoinSuffix(tokens[..i], tokens[i], ',');
      text := text + [','] + tokens[i];
    }
    assert tokens[..|tokens|] == tokens;
  }

  lemma Regroup(a: string, b: string, c: string)
    ensures a + b + c == a + (b + c)
  {
  }

  lemma TailHeading(f: Field, heading: string)
    requires ValidField(f) && heading == ";" + FieldName(f) + "="
    ensures Tail(Spell(), f, true) == heading + FieldValue(f)
  {
    var name, value := FieldName(f), FieldValue(f);
    assert ";" + (name + "=" + value) == ";" + name + "=" + value;
  }

  method WriteHead(rule: Rule) returns (text: string)
    requires WellFormed(rule)
    ensures text == Spell()(Freq(rule.frequency)) + Tail(Spell(), Interval(rule.interval), true)
  {
    text := "FREQ=" + FrequencyName(rule.frequency) + ";INTERVAL=" + Print(rule.interval);
    TailHeading(Interval(rule.interval), ";INTERVAL=");
    Regroup("FREQ=" + FrequencyName(rule.frequency), ";INTERVAL=", Print(rule.interval));
  }

  method WriteByDay(result: string, days: set<DayOfWeek>) returns (text: string)
    ensures text == result + Tail(Spell(), ByDay(days), days != {})
  {
    text := result;
    if days != {} {
      TokensNonempty(ByDay(days));
      text := WriteTokens(text + ";BYDAY=", DayTokens(days));
      TailHeading(ByDay(days), ";BYDAY=");
      Regroup(result, ";BYDAY=", FieldValue(ByDay(days)));
    }
  }

  method WriteByMonthDay(result: string, days: set<int>) returns (text: string)
    requires days != {} ==> ValidField(ByMonthDay(days))
    ensures text == result + Tail(Spell(), ByMonthDay(days), days != {})
  {
    text := result;
    if days != {} {
      TokensNonempty(ByMonthDay(days));
      text := WriteTokens(text + ";BYMONTHDAY=", MonthDayTokens(days));
      TailHeading(ByMonthDay(days), ";BYMONTHDAY=");
      Regroup(result, ";BYMONTHDAY=", FieldValue(ByMonthDay(days)));
    }
  }

  method WriteTermination(result: string, t: Termination) returns (text: string)
    requires ValidField(TerminationField(t))
    ensures text == result + Tail(Spell(), TerminationField(t), true)
  {
    match t
    case Count(n) =>
      text := result + ";COUNT=" + Print(n);
      Regroup(result, ";COUNT=", Print(n));
      TailHeading(CountOf(n), ";COUNT=");
    case Until(d) =>
      text := result + ";UNTIL=" + (Padded(d.year, 4) + Padded(d.month, 2) + Padded(d.day, 2));
      Regroup(result, ";UNTIL=", PrintDate(d));
      TailHeading(UntilDate(d), ";UNTIL=");
  }

  /** `canonical` */
  method WriteCanonical(rule: Rule) returns (text: string)
    requires WellFormed(rule)
    ensures text == Canonical(rule)
  {
    CanonicalWritten(rule);
    text := WriteHead(rule);
    text := WriteByDay(text, rule.byDay);
    text := WriteByMonthDay(text, rule.byMonthDay);
    text := WriteTermination(text, rule.termination);
  }

  /** `canonicalize_custom_rrule`: a fixed point of itself that denotes the same rule. */
  method CanonicalizeCustomRrule(text: string) returns (r: Result<string, Error>)
    ensures r.Ok? <==> Parse(text).Ok?
    ensures r.Err? ==> r.error == Parse(text).error
    ensures r.Ok? ==> WellFormed(Parse(text).value) && r.value == Canonical(Parse(text).value) && Parse(r.value) == Parse(text)
  {
    var rule := ParseCustomRrule(text);
    if rule.Err? {
      return Err(rule.error);
    }
    CanonicalIdempotent(text);
    var canonical := WriteCanonical(rule.value);
    return Ok(canonical);
  }
}
