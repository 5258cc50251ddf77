/** Custom recurrence rules: the strict RRULE subset and its parser. Text is its bytes, one `char` each. */
module RecurrenceRules {
  import opened Base
  import opened Calendar
  import opened Digits
  import opened Text
  import opened Folds

  const MAX_BYTES := 1_024
  const MAX_INTERVAL := 1_200
  const MAX_OCCURRENCES := 10_000

  datatype Frequency = Daily | Weekly | Monthly

  datatype Termination = Count(count: nat) | Until(date: Date)

  datatype Rule = Rule(frequency: Frequency, interval: nat, byDay: set<DayOfWeek>, byMonthDay: set<int>, termination: Termination)

  datatype Error =
    | Empty
    | TooLong
    | InvalidCharacters
    | MalformedPart
    | DuplicatePart(name: string)
    | MissingFrequency
    | UnsupportedFrequency(value: string)
    | InvalidInterval
    | InvalidCount
    | InvalidByDay
    | UnsupportedOrdinalByDay
    | DuplicateByDay(token: string)
    | InvalidByMonthDay
    | DuplicateByMonthDay(day: int)
    | InvalidUntil
    | MissingTermination
    | ConflictingTermination
    | WeeklyByMonthDay
    | UnsupportedBySetPosition
    | UnsupportedTimeComponent(name: string)
    | UnknownPart(name: string)

  // ---- Values ----

  /** `parse_plain_u32` followed by a range check; numbers too large for 32 bits are out of range. */
  function ReadNumber(value: string, max: nat, error: Error): Result<nat, Error> {
    if value == "" || !AllDigits(value) then Err(error)
    else if 1 <= Value(value) <= max then Ok(Value(value))
    else Err(error)
  }

  function DayName(day: DayOfWeek): string {
    match day
    case Monday => "MO"
    case Tuesday => "TU"
    case Wednesday => "WE"
    case Thursday => "TH"
    case Friday => "FR"
    case Saturday => "SA"
    case Sunday => "SU"
  }

  predicate IsOrdinalChar(c: char) {
    IsDigit(c) || c == '+' || c == '-'
  }

  predicate IsOrdinal(token: string) {
    exists i :: 0 <= i < |token| && IsOrdinalChar(token[i])
  }

  function ReadDay(token: string): Result<DayOfWeek, Error> {
    if token == "MO" then Ok(Monday)
    else if token == "TU" then Ok(Tuesday)
    else if token == "WE" then Ok(Wednesday)
    else if token == "TH" then Ok(Thursday)
    else if token == "FR" then Ok(Friday)
    else if token == "SA" then Ok(Saturday)
    else if token == "SU" then Ok(Sunday)
    else if IsOrdinal(token) then Err(UnsupportedOrdinalByDay)
    else Err(InvalidByDay)
  }

  const DAY_TOKENS := ["MO", "TU", "WE", "TH", "FR", "SA", "SU"]

  /** The seven tokens name the seven days from Monday on, and nothing else names a day. */
  lemma DayTokenMeans(token: string, day: DayOfWeek)
    ensures WeekdayIndex(day) < 7
    ensures ReadDay(token) == Ok(day) <==> token == DAY_TOKENS[WeekdayIndex(day)]
    ensures DayName(day) == DAY_TOKENS[WeekdayIndex(day)]
  {
  }

  /** A token that names no day is refused as an ordinal if it holds a digit or a sign. */
  lemma DayTokenRefused(token: string)
    requires token !in DAY_TOKENS
    ensures ReadDay(token) == Err(if exists c :: c in token && c in "0123456789+-" then UnsupportedOrdinalByDay else InvalidByDay)
  {
    if IsOrdinal(token) {
      var i :| 0 <= i < |token| && IsOrdinalChar(token[i]);
      OrdinalChars(token[i]);
    }
    forall c | c in token && c in "0123456789+-" ensures IsOrdinal(token) {
      OrdinalChars(c);
    }
  }

  lemma OrdinalChars(c: char)
    ensures IsOrdinalChar(c) <==> c in "0123456789+-"
  {
  }

  predicate IsMonthDay(day: int) {
    day != 0 && -31 <= day <= 31
  }

  /** A signed month day; a lone sign and a number too large for 8 bits are invalid like any other. */
  function ReadMonthDay(token: string): Result<int, Error> {
    var negative := token != "" && token[0] == '-';
    var digits := if negative then token[1..] else token;
    if digits == "" || !AllDigits(digits) then Err(InvalidByMonthDay)
    else
      var day := if negative then 0 - Value(digits) else Value(digits);
      if IsMonthDay(day) then Ok(day) else Err(InvalidByMonthDay)
  }

  function CollectDay(days: set<DayOfWeek>, token: string): Result<set<DayOfWeek>, Error> {
    match ReadDay(token)
    case Err(error) => Err(error)
    case Ok(day) => if day in days then Err(DuplicateByDay(token)) else Ok(days + {day})
  }

  function CollectMonthDay(days: set<int>, token: string): Result<set<int>, Error> {
    match ReadMonthDay(token)
    case Err(error) => Err(error)
    case Ok(day) => if day in days then Err(DuplicateByMonthDay(day)) else Ok(days + {day})
  }

  function ReadUntil(value: string): Result<Date, Error> {
    if |value| != 8 || !AllDigits(value) then Err(InvalidUntil)
    else
      var date := Date(Value(value[0..4]), Value(value[4..6]), Value(value[6..8]));
      if date.year == 0 || !date.Valid() then Err(InvalidUntil) else Ok(date)
  }

  // ---- Parts ----

  datatype Field =
    | Freq(frequency: Frequency)
    | Interval(interval: nat)
    | ByDay(days: set<DayOfWeek>)
    | ByMonthDay(monthDays: set<int>)
    | CountOf(count: nat)
    | UntilDate(date: Date)

  function FieldName(f: Field): string {
    match f
    case Freq(_) => "FREQ"
    case Interval(_) => "INTERVAL"
    case ByDay(_) => "BYDAY"
    case ByMonthDay(_) => "BYMONTHDAY"
    case CountOf(_) => "COUNT"
    case UntilDate(_) => "UNTIL"
  }

  function ReadFrequency(value: string): Result<Frequency, Error> {
    if value == "DAILY" then Ok(Daily)
    else if value == "WEEKLY" then Ok(Weekly)
    else if value == "MONTHLY" then Ok(Monthly)
    else Err(UnsupportedFrequency(value))
  }

  lemma FrequencyMeans(value: string)
    ensures ReadFrequency(value) == Ok(Daily) <==> value == "DAILY"
    ensures ReadFrequency(value) == Ok(Weekly) <==> value == "WEEKLY"
    ensures ReadFrequency(value) == Ok(Monthly) <==> value == "MONTHLY"
    ensures ReadFrequency(value).Err? ==> ReadFrequency(value).error == UnsupportedFrequency(value)
  {
  }

  function Lift<T>(r: Result<T, Error>, make: T -> Field): Result<Field, Error> {
    match r
    case Err(error) => Err(error)
    case Ok(x) => Ok(make(x))
  }

  /** The meaning of one upper-cased part. */
  function ReadField(name: string, value: string): Result<Field, Error> {
    if name == "FREQ" then Lift(ReadFrequency(value), x => Freq(x))
    else if name == "INTERVAL" then Lift(ReadNumber(value, MAX_INTERVAL, InvalidInterval), x => Interval(x))
    else if name == "BYDAY" then Lift(Fold({}, Split(value, ','), CollectDay), x => ByDay(x))
    else if name == "BYMONTHDAY" then Lift(Fold({}, Split(value, ','), CollectMonthDay), x => ByMonthDay(x))
    else if name == "COUNT" then Lift(ReadNumber(value, MAX_OCCURRENCES, InvalidCount), x => CountOf(x))
    else if name == "UNTIL" then Lift(ReadUntil(value), x => UntilDate(x))
    else if name == "BYSETPOS" then Err(UnsupportedBySetPosition)
    else if name == "BYHOUR" || name == "BYMINUTE" || name == "BYSECOND" then Err(UnsupportedTimeComponent(name))
    else Err(UnknownPart(name))
  }

  /** The name and value of a part, upper-cased. */
  function ReadPart(part: string): Result<(string, string), Error> {
    match SplitOnce(part, '=')
    case None => Err(MalformedPart)
    case Some(pair) =>
      if pair.0 == "" || pair.1 == "" || '=' in pair.1 then Err(MalformedPart)
      else Ok((Upper(pair.0), Upper(pair.1)))
  }

  datatype Draft = Draft(
    seen: set<string>,
    frequency: Option<Frequency>,
    interval: Option<nat>,
    byDay: Option<set<DayOfWeek>>,
    byMonthDay: Option<set<int>>,
    count: Option<nat>,
    until: Option<Date>)

  const BLANK := Draft({}, None, None, None, None, None, None)

  function Assign(d: Draft, f: Field): Draft {
    var named := d.(seen := d.seen + {FieldName(f)});
    match f
    case Freq(x) => named.(frequency := Some(x))
    case Interval(x) => named.(interval := Some(x))
    case ByDay(x) => named.(byDay := Some(x))
    case ByMonthDay(x) => named.(byMonthDay := Some(x))
    case CountOf(x) => named.(count := Some(x))
    case UntilDate(x) => named.(until := Some(x))
  }

  function ReadInto(d: Draft, name: string, value: string): Result<Draft, Error> {
    if name in d.seen then Err(DuplicatePart(name))
    else
      match ReadField(name, value)
      case Err(error) => Err(error)
      case Ok(f) => Ok(Assign(d, f))
  }

  function Step(d: Draft, part: string): Result<Draft, Error> {
    match ReadPart(part)
    case Err(error) => Err(error)
    case Ok(pair) => ReadInto(d, pair.0, pair.1)
  }

  function Finish(d: Draft): Result<Rule, Error> {
    if d.frequency.None? then Err(MissingFrequency)
    else if d.count.None? && d.until.None? then Err(MissingTermination)
    else if d.count.Some? && d.until.Some? then Err(ConflictingTermination)
    else
      var byDay := if d.byDay.Some? then d.byDay.value else {};
      var byMonthDay := if d.byMonthDay.Some? then d.byMonthDay.value else {};
      if d.frequency.value.Weekly? && byMonthDay != {} then Err(WeeklyByMonthDay)
      else Ok(Rule(d.frequency.value, if d.interval.Some? then d.interval.value else 1, byDay, byMonthDay,
                   if d.count.Some? then Count(d.count.value) else Until(d.until.value)))
  }

  // ---- Whole rules ----

  predicate HasPrefix(text: string) {
    |text| >= 6 && Upper(text[..6]) == "RRULE:"
  }

  /** The text without its optional prefix. */
  function Body(text: string): string {
    if HasPrefix(text) then text[6..] else text
  }

  function ParseBody(body: string): Result<Rule, Error> {
    if body == "" then Err(Empty)
    else
      match Fold(BLANK, Split(body, ';'), Step)
      case Err(error) => Err(error)
      case Ok(d) => Finish(d)
  }

  /** `parse_custom_rrule` as a function of the text. */
  function Parse(text: string): Result<Rule, Error> {
    if text == "" then Err(Empty)
    else if |text| > MAX_BYTES then Err(TooLong)
    else if !AllGraphic(text) then Err(InvalidCharacters)
    else ParseBody(Body(text))
  }

  // ---- The parser's loops ----

  method ParseByDay(value: string) returns (r: Result<set<DayOfWeek>, Error>)
    ensures r == Fold({}, Split(value, ','), CollectDay)
  {
    var tokens := Split(value, ',');
    var days: set<DayOfWeek> := {};
    for i := 0 to |tokens|
      invariant Fold({}, tokens[..i], CollectDay) == Ok(days)
      invariant i > 0 ==> days != {}
    {
      FoldNext({}, tokens, i, days, CollectDay);
      var day := ReadDay(tokens[i]);
      if day.Err? {
        return Err(day.error);
      }
      if day.value in days {
        return Err(DuplicateByDay(tokens[i]));
      }
      days := days + {day.value};
    }
    assert tokens[..|tokens|] == tokens;
    r := if days == {} then Err(InvalidByDay) else Ok(days);
  }

  method ParseByMonthDay(value: string) returns (r: Result<set<int>, Error>)
    ensures r == Fold({}, Split(value, ','), CollectMonthDay)
  {
    var tokens := Split(value, ',');
    var days: set<int> := {};
    for i := 0 to |tokens|
      invariant Fold({}, tokens[..i], CollectMonthDay) == Ok(days)
      invariant i > 0 ==> days != {}
    {
      FoldNext({}, tokens, i, days, CollectMonthDay);
      var day := ReadMonthDay(tokens[i]);
      if day.Err? {
        return Err(day.error);
      }
      if day.value in days {
        return Err(DuplicateByMonthDay(day.value));
      }
      days := days + {day.value};
    }
    assert tokens[..|tokens|] == tokens;
    r := if days == {} then Err(InvalidByMonthDay) else Ok(days);
  }

  method ParseField(name: string, value: string) returns (r: Result<Field, Error>)
    ensures r == ReadField(name, value)
  {
    if name == "BYDAY" {
      var days := ParseByDay(value);
      return if days.Ok? then Ok(ByDay(days.value)) else Err(days.error);
    }
    if name == "BYMONTHDAY" {
      var days := ParseByMonthDay(value);
      return if days.Ok? then Ok(ByMonthDay(days.value)) else Err(days.error);
    }
    return ReadField(name, value);
  }

  /** `parse_custom_rrule` */
  method ParseCustomRrule(text: string) returns (r: Result<Rule, Error>)
    ensures r == Parse(text)
  {
    if text == "" {
      return Err(Empty);
    }
    if |text| > MAX_BYTES {
      return Err(TooLong);
    }
    if !AllGraphic(text) {
      return Err(InvalidCharacters);
    }
    var body := Body(text);
    if body == "" {
      return Err(Empty);
    }
    var parts := Split(body, ';');
    var draft := BLANK;
    for i := 0 to |parts|
      invariant Fold(BLANK, parts[..i], Step) == Ok(draft)
    {
      FoldNext(BLANK, parts, i, draft, Step);
      var pair := ReadPart(parts[i]);
      if pair.Err? {
        return Err(pair.error);
      }
      var (name, value) := pair.value;
      if name in draft.seen {
        return Err(DuplicatePart(name));
      }
      var field := ParseField(name, value);
      if field.Err? {
        return Err(field.error);
      }
      draft := Assign(draft, field.value);
    }
    assert parts[..|parts|] == parts;
    return Finish(draft);
  }
}
