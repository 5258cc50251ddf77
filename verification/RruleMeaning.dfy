/** What a custom recurrence rule text means, stated as a grammar: which texts denote which rule, and
    what each refusal says. */
module RecurrenceMeaning {
  import opened Base
  import opened Calendar
  import opened Digits
  import opened Text
  import opened Folds
  import opened RecurrenceRules
  import opened RecurrenceLaws

  // ---- Lists of days ----

  ghost predicate Named<T>(names: (string, T) -> bool, tokens: seq<string>, d: T) {
    exists i :: 0 <= i < |tokens| && names(tokens[i], d)
  }

  ghost predicate NamesSome<T(!new)>(names: (string, T) -> bool, token: string) {
    exists d :: names(token, d)
  }

  /** The tokens name pairwise different things, and `days` is what they name. */
  ghost predicate Lists<T(!new)>(names: (string, T) -> bool, tokens: seq<string>, days: set<T>) {
    && (forall i :: 0 <= i < |tokens| ==> NamesSome(names, tokens[i]))
    && (forall i, j, d :: 0 <= i < j < |tokens| && names(tokens[i], d) ==> !names(tokens[j], d))
    && (forall d :: d in days <==> Named(names, tokens, d))
  }

  /** A token names at most one thing. */
  ghost predicate Functional<T(!new)>(names: (string, T) -> bool) {
    forall t, d, e :: names(t, d) && names(t, e) ==> d == e
  }

  /** `step` adds what a token names, unless it is there already. */
  ghost predicate Collects<T(!new)>(names: (string, T) -> bool, step: (set<T>, string) -> Result<set<T>, Error>) {
    && (forall s, t, d :: names(t, d) ==> step(s, t).Ok? == (d !in s) && (d !in s ==> step(s, t) == Ok(s + {d})))
    && (forall s, t :: step(s, t).Ok? ==> NamesSome(names, t))
  }

  lemma NamedAppend<T(!new)>(names: (string, T) -> bool, rest: seq<string>, t: string, d: T)
    ensures Named(names, rest + [t], d) <==> Named(names, rest, d) || names(t, d)
  {
    var all := rest + [t];
    assert forall i :: 0 <= i < |rest| ==> all[i] == rest[i];
    assert all[|rest|] == t;
  }

  lemma ListsMore<T(!new)>(names: (string, T) -> bool, rest: seq<string>, t: string, d: T, days: set<T>)
    requires Functional(names) && names(t, d) && d !in days && Lists(names, rest, days)
    ensures Lists(names, rest + [t], days + {d})
  {
    var all := rest + [t];
    assert forall i :: 0 <= i < |all| ==> all[i] == if i < |rest| then rest[i] else t;
    assert !Named(names, rest, d);
    forall e ensures e in days + {d} <==> Named(names, all, e) {
      NamedAppend(names, rest, t, e);
    }
    forall i, j, e | 0 <= i < j < |all| && names(all[i], e) ensures !names(all[j], e) {
      if j == |rest| && names(t, e) {
        assert false;
      }
    }
  }

  lemma ListsFewer<T(!new)>(names: (string, T) -> bool, rest: seq<string>, t: string, d: T, days: set<T>)
    requires Functional(names) && names(t, d) && Lists(names, rest + [t], days)
    ensures d in days && Lists(names, rest, days - {d})
  {
    var all := rest + [t];
    assert forall i :: 0 <= i < |all| ==> all[i] == if i < |rest| then rest[i] else t;
    assert names(all[|rest|], d);
    forall i | 0 <= i < |rest| ensures !names(rest[i], d) {
      assert all[i] == rest[i];
    }
    forall e ensures e in days - {d} <==> Named(names, rest, e) {
      NamedAppend(names, rest, t, e);
    }
    NamedAppend(names, rest, t, d);
    forall i | 0 <= i < |rest| ensures NamesSome(names, rest[i]) {
      assert NamesSome(names, all[i]);
    }
  }

  /** Collecting the tokens succeeds exactly when they list something, and gives what they list. */
  lemma {:induction false} CollectedIff<T(!new)>(names: (string, T) -> bool, step: (set<T>, string) -> Result<set<T>, Error>,
                                                 tokens: seq<string>, days: set<T>)
    requires Functional(names) && Collects(names, step)
    ensures Fold({}, tokens, step) == Ok(days) <==> Lists(names, tokens, days)
    decreases |tokens|
  {
    if tokens == [] {
      if Lists(names, tokens, days) {
        assert forall d :: d in days ==> Named(names, tokens, d);
        assert days == {};
      }
    } else {
      var rest, t := tokens[..|tokens| - 1], tokens[|tokens| - 1];
      assert tokens == rest + [t];
      if Fold({}, tokens, step) == Ok(days) {
        var before := Fold({}, rest, step).value;
        CollectedIff(names, step, rest, before);
        var d :| names(t, d);
        ListsMore(names, rest, t, d, before);
      }
      if Lists(names, tokens, days) {
        assert NamesSome(names, tokens[|rest|]);
        var d :| names(t, d);
        ListsFewer(names, rest, t, d, days);
        CollectedIff(names, step, rest, days - {d});
        assert days - {d} + {d} == days;
      }
    }
  }

  lemma ReadingCollects<T(!new)>(names: (string, T) -> bool, read: string -> Result<T, Error>, step: (set<T>, string) -> Result<set<T>, Error>)
    requires forall t, d {:trigger names(t, d)} :: names(t, d) <==> read(t) == Ok(d)
    requires forall s, t :: read(t).Err? ==> step(s, t).Err?
    requires forall s, t :: read(t).Ok? && read(t).value in s ==> step(s, t).Err?
    requires forall s, t :: read(t).Ok? && read(t).value !in s ==> step(s, t) == Ok(s + {read(t).value})
    ensures Functional(names) && Collects(names, step)
  {
    forall s, t | step(s, t).Ok? ensures NamesSome(names, t) {
      assert names(t, read(t).value);
    }
  }

  // ---- One part ----

  ghost predicate Numeral(s: string, n: int) {
    s != "" && AllDigits(s) && Value(s) == n
  }

  ghost function NamesDay(): (string, DayOfWeek) -> bool {
    (token, day) => WeekdayIndex(day) < 7 && token == DAY_TOKENS[WeekdayIndex(day)]
  }

  /** Days of a month count from its first day, or with a minus from its last. */
  ghost function NamesMonthDay(): (string, int) -> bool {
    (token, day) =>
      || (1 <= day <= 31 && Numeral(token, day))
      || (-31 <= day <= -1 && token != "" && token[0] == '-' && Numeral(token[1..], -day))
  }

  /** `value` is the year in four digits, the month in two and the day in two. */
  ghost predicate SpellsDate(value: string, d: Date) {
    && |value| == 8 && AllDigits(value) && d.Valid() && 1 <= d.year <= 9999
    && value == Padded(d.year, 4) + Padded(d.month, 2) + Padded(d.day, 2)
  }

  /** Name and value, both upper-cased, denote the field. */
  ghost predicate Denotes(name: string, value: string, f: Field) {
    match f
    case Freq(Daily) => name == "FREQ" && value == "DAILY"
    case Freq(Weekly) => name == "FREQ" && value == "WEEKLY"
    case Freq(Monthly) => name == "FREQ" && value == "MONTHLY"
    case Interval(n) => name == "INTERVAL" && Numeral(value, n) && 1 <= n <= 1_200
    case ByDay(days) => name == "BYDAY" && Lists(NamesDay(), Split(value, ','), days)
    case ByMonthDay(days) => name == "BYMONTHDAY" && Lists(NamesMonthDay(), Split(value, ','), days)
    case CountOf(n) => name == "COUNT" && Numeral(value, n) && 1 <= n <= 10_000
    case UntilDate(d) => name == "UNTIL" && SpellsDate(value, d)
  }

  lemma DayIff(token: string, day: DayOfWeek)
    ensures ReadDay(token) == Ok(day) <==> NamesDay()(token, day)
  {
    DayTokenMeans(token, day);
  }

  lemma DaysCollect()
    ensures Functional(NamesDay()) && Collects(NamesDay(), CollectDay)
  {
    forall t, d ensures NamesDay()(t, d) <==> ReadDay(t) == Ok(d) {
      DayIff(t, d);
    }
    ReadingCollects(NamesDay(), ReadDay, CollectDay);
  }

  lemma MonthDayIff(token: string, day: int)
    ensures ReadMonthDay(token) == Ok(day) <==> NamesMonthDay()(token, day)
  {
    if token != "" && token[0] == '-' {
      assert !IsDigit(token[0]);
    }
  }

  lemma MonthDaysCollect()
    ensures Functional(NamesMonthDay()) && Collects(NamesMonthDay(), CollectMonthDay)
  {
    forall t, d ensures NamesMonthDay()(t, d) <==> ReadMonthDay(t) == Ok(d) {
      MonthDayIff(t, d);
    }
    ReadingCollects(NamesMonthDay(), ReadMonthDay, CollectMonthDay);
  }

  lemma UntilIff(value: string, d: Date)
    ensures ReadUntil(value) == Ok(d) <==> SpellsDate(value, d)
  {
    if |value| == 8 && AllDigits(value) {
      var year, month, day := value[0..4], value[4..6], value[6..8];
      assert value == year + month + day;
      ReadsPadded(year);
      ReadsPadded(month);
      ReadsPadded(day);
      ValueBelow(year);
    }
    if SpellsDate(value, d) {
      SpelledDate(value, d);
    }
  }

  lemma SpelledDate(value: string, d: Date)
    requires SpellsDate(value, d)
    ensures Value(value[0..4]) == d.year && Value(value[4..6]) == d.month && Value(value[6..8]) == d.day
  {
    assert value[0..4] == Padded(d.year, 4) && value[4..6] == Padded(d.month, 2) && value[6..8] == Padded(d.day, 2);
    assert Pow10(4) == 10_000 && Pow10(2) == 100;
    PaddedReads(d.year, 4);
    PaddedReads(d.month, 2);
    PaddedReads(d.day, 2);
  }

  /** The reader of a field agrees with the grammar. */
  lemma FieldIff(name: string, value: string, f: Field)
    ensures ReadField(name, value) == Ok(f) <==> Denotes(name, value, f)
  {
    match f
    case Freq(_) => FrequencyMeans(value);
    case ByDay(days) =>
      DaysCollect();
      CollectedIff(NamesDay(), CollectDay, Split(value, ','), days);
    case ByMonthDay(days) =>
      MonthDaysCollect();
      CollectedIff(NamesMonthDay(), CollectMonthDay, Split(value, ','), days);
    case UntilDate(d) => UntilIff(value, d);
    case _ =>
  }

  /** The only equals sign of `part` is at `i`, and something stands on either side. */
  ghost predicate EqualsAt(part: string, i: int) {
    0 < i < |part| - 1 && part[i] == '=' && '=' !in part[..i] && '=' !in part[i + 1..]
  }

  ghost predicate PartDenotes(part: string, f: Field) {
    exists i :: EqualsAt(part, i) && Denotes(Upper(part[..i]), Upper(part[i + 1..]), f)
  }

  lemma PartRead(part: string, i: int)
    ensures EqualsAt(part, i) ==> ReadPart(part) == Ok((Upper(part[..i]), Upper(part[i + 1..])))
    ensures ReadPart(part).Ok? ==> EqualsAt(part, FirstIndex(part, '='))
    ensures ReadPart(part).Err? ==> ReadPart(part).error == MalformedPart
  {
    if EqualsAt(part, i) {
      FirstIndexUnique(part, '=', i);
    }
  }

  lemma PartFieldIff(part: string, f: Field)
    ensures PartField(part) == Some(f) <==> PartDenotes(part, f)
  {
    PartRead(part, FirstIndex(part, '='));
    if ReadPart(part).Ok? {
      FieldIff(ReadPart(part).value.0, ReadPart(part).value.1, f);
    }
    if PartDenotes(part, f) {
      var i :| EqualsAt(part, i) && Denotes(Upper(part[..i]), Upper(part[i + 1..]), f);
      PartRead(part, i);
    }
  }

  // ---- Whole rules ----

  ghost predicate Says(parts: seq<string>, f: Field) {
    exists i :: 0 <= i < |parts| && PartDenotes(parts[i], f)
  }

  ghost predicate SaysSome(part: string) {
    exists f :: PartDenotes(part, f)
  }

  ghost predicate SameName(p: string, q: string) {
    exists f, g :: PartDenotes(p, f) && PartDenotes(q, g) && FieldName(f) == FieldName(g)
  }

  /** Every part denotes a field, and no two parts denote fields of the same name. */
  ghost predicate Understood(parts: seq<string>) {
    && (forall i :: 0 <= i < |parts| ==> SaysSome(parts[i]))
    && (forall i, j :: 0 <= i < j < |parts| ==> !SameName(parts[i], parts[j]))
  }

  ghost function SaidBy(parts: seq<string>): Field -> bool {
    f => Says(parts, f)
  }

  /** What has been said, with defaults for what was left out: a rule ends after a count or on a date,
      never both, and weekly rules have no days of the month. */
  ghost predicate DenotesRule(said: Field -> bool, rule: Rule) {
    && said(Freq(rule.frequency))
    && (said(Interval(rule.interval)) || (rule.interval == 1 && forall n :: !said(Interval(n))))
    && (said(ByDay(rule.byDay)) || (rule.byDay == {} && forall days :: !said(ByDay(days))))
    && (said(ByMonthDay(rule.byMonthDay)) || (rule.byMonthDay == {} && forall days :: !said(ByMonthDay(days))))
    && Ends(said, rule.termination)
    && (rule.frequency == Weekly ==> rule.byMonthDay == {})
  }

  ghost predicate Ends(said: Field -> bool, termination: Termination) {
    match termination
    case Count(n) => said(CountOf(n)) && forall d :: !said(UntilDate(d))
    case Until(d) => said(UntilDate(d)) && forall n :: !said(CountOf(n))
  }

  lemma SaysIff(parts: seq<string>, f: Field)
    ensures Says(parts, f) <==> Denoted(parts, f)
  {
    forall i | 0 <= i < |parts| ensures PartDenotes(parts[i], f) <==> PartField(parts[i]) == Some(f) {
      PartFieldIff(parts[i], f);
    }
  }

  lemma SaysSomeIff(part: string)
    ensures SaysSome(part) <==> PartField(part).Some?
  {
    if SaysSome(part) {
      var f :| PartDenotes(part, f);
      PartFieldIff(part, f);
    }
    if PartField(part).Some? {
      PartFieldIff(part, PartField(part).value);
    }
  }

  lemma SameNameIff(p: string, q: string)
    requires PartField(p).Some? && PartField(q).Some?
    ensures SameName(p, q) <==> FieldName(PartField(p).value) == FieldName(PartField(q).value)
  {
    if SameName(p, q) {
      var f, g :| PartDenotes(p, f) && PartDenotes(q, g) && FieldName(f) == FieldName(g);
      PartFieldIff(p, f);
      PartFieldIff(q, g);
    }
    PartFieldIff(p, PartField(p).value);
    PartFieldIff(q, PartField(q).value);
  }

  lemma UnderstoodIff(parts: seq<string>)
    ensures Understood(parts) <==> Acceptable(parts)
  {
    forall i | 0 <= i < |parts| ensures SaysSome(parts[i]) <==> PartField(parts[i]).Some? {
      SaysSomeIff(parts[i]);
    }
    if EachDenotes(parts) {
      forall i, j | 0 <= i < j < |parts|
        ensures SameName(parts[i], parts[j]) <==> FieldName(PartField(parts[i]).value) == FieldName(PartField(parts[j]).value)
      {
        SameNameIff(parts[i], parts[j]);
      }
    }
  }

  ghost function HeldBy(d: Draft): Field -> bool {
    f => HasField(d, f)
  }

  /** A draft is finished exactly into the rule that it denotes. */
  lemma FinishIff(d: Draft, rule: Rule)
    ensures Finish(d) == Ok(rule) <==> DenotesRule(HeldBy(d), rule)
  {
    assert d.interval.Some? ==> HeldBy(d)(Interval(d.interval.value));
    assert d.byDay.Some? ==> HeldBy(d)(ByDay(d.byDay.value));
    assert d.byMonthDay.Some? ==> HeldBy(d)(ByMonthDay(d.byMonthDay.value));
    EndsIff(d, rule.termination);
  }

  lemma EndsIff(d: Draft, termination: Termination)
    ensures Ends(HeldBy(d), termination) <==>
      if d.count.Some? then d.until.None? && termination == Count(d.count.value)
      else d.until.Some? && termination == Until(d.until.value)
  {
    assert d.count.Some? ==> HeldBy(d)(CountOf(d.count.value));
    assert d.until.Some? ==> HeldBy(d)(UntilDate(d.until.value));
  }

  lemma SaidAlike(said: Field -> bool, held: Field -> bool, rule: Rule)
    requires forall f :: said(f) == held(f)
    ensures DenotesRule(said, rule) <==> DenotesRule(held, rule)
  {
  }

  /** The prefix may be written in any letter case, and whatever follows it is the body. */
  lemma BodyMeans(text: string, prefix: string, rest: string)
    requires text == prefix + rest && |prefix| == 6
    ensures Upper(prefix) == "RRULE:" ==> Body(text) == rest
    ensures Upper(prefix) != "RRULE:" ==> Body(text) == text
  {
    assert text[..6] == prefix && text[6..] == rest;
  }

  lemma PartsMean(parts: seq<string>, rule: Rule)
    requires Acceptable(parts)
    ensures Fold(BLANK, parts, Step).Ok? && (Finish(Fold(BLANK, parts, Step).value) == Ok(rule) <==> DenotesRule(SaidBy(parts), rule))
  {
    PartsAcceptedIff(parts, Freq(Daily));
    var d := Fold(BLANK, parts, Step).value;
    forall f ensures SaidBy(parts)(f) == HeldBy(d)(f) {
      SaysIff(parts, f);
      PartsAcceptedIff(parts, f);
    }
    SaidAlike(SaidBy(parts), HeldBy(d), rule);
    FinishIff(d, rule);
  }

  ghost predicate DenoteRule(parts: seq<string>, rule: Rule) {
    Understood(parts) && DenotesRule(SaidBy(parts), rule)
  }

  ghost function PartsParsed(parts: seq<string>): Result<Rule, Error> {
    match Fold(BLANK, parts, Step)
    case Err(error) => Err(error)
    case Ok(d) => Finish(d)
  }

  lemma PartsParsedIff(parts: seq<string>, rule: Rule)
    ensures PartsParsed(parts) == Ok(rule) <==> DenoteRule(parts, rule)
  {
    UnderstoodIff(parts);
    PartsAcceptedIff(parts, Freq(Daily));
    if Acceptable(parts) {
      PartsMean(parts, rule);
    }
  }

  ghost predicate Admissible(text: string) {
    1 <= |text| <= 1_024 && (forall i :: 0 <= i < |text| ==> '!' <= text[i] <= '~') && Body(text) != ""
  }

  lemma ParsedIfAdmissible(text: string)
    ensures Admissible(text) ==> Parse(text) == PartsParsed(Split(Body(text), ';'))
    ensures !Admissible(text) ==> Parse(text).Err?
  {
  }

  /** A text parses to a rule exactly when it denotes that rule. */
  lemma ParseMeaning(text: string, rule: Rule)
    ensures Parse(text) == Ok(rule) <==> Admissible(text) && DenoteRule(Split(Body(text), ';'), rule)
  {
    ParsedIfAdmissible(text);
    PartsParsedIff(Split(Body(text), ';'), rule);
  }

  // ---- Refusals ----

  lemma {:induction false} FoldFails<S, P>(start: S, parts: seq<P>, step: (S, P) -> Result<S, Error>) returns (k: nat)
    requires Fold(start, parts, step).Err?
    ensures k < |parts| && Fold(start, parts[..k], step).Ok?
    ensures Fold(start, parts, step) == step(Fold(start, parts[..k], step).value, parts[k])
    decreases |parts|
  {
    var n := |parts| - 1;
    if Fold(start, parts[..n], step).Ok? {
      k := n;
    } else {
      k := FoldFails(start, parts[..n], step);
      assert parts[..n][..k] == parts[..k];
    }
  }

  ghost predicate AnOrdinal(token: string) {
    exists c :: c in token && c in "0123456789+-"
  }

  /** The complaint about the list entry `tokens[k]`, when the entries before it are fine. */
  ghost predicate DayRefused(tokens: seq<string>, k: int, e: Error) {
    && 0 <= k < |tokens|
    && (exists days :: Lists(NamesDay(), tokens[..k], days))
    && match e
       case DuplicateByDay(token) => token == tokens[k] && token in DAY_TOKENS && token in tokens[..k]
       case UnsupportedOrdinalByDay => tokens[k] !in DAY_TOKENS && AnOrdinal(tokens[k])
       case InvalidByDay => tokens[k] !in DAY_TOKENS && !AnOrdinal(tokens[k])
       case _ => false
  }

  ghost predicate MonthDayRefused(tokens: seq<string>, k: int, e: Error) {
    && 0 <= k < |tokens|
    && (exists days :: Lists(NamesMonthDay(), tokens[..k], days))
    && match e
       case DuplicateByMonthDay(day) => NamesMonthDay()(tokens[k], day) && Named(NamesMonthDay(), tokens[..k], day)
       case InvalidByMonthDay => !NamesSome(NamesMonthDay(), tokens[k])
       case _ => false
  }

  /** What is wrong with a field of this name. */
  ghost predicate FieldRefused(name: string, value: string, e: Error) {
    match e
    case UnsupportedFrequency(v) => name == "FREQ" && v == value && v !in {"DAILY", "WEEKLY", "MONTHLY"}
    case InvalidInterval => name == "INTERVAL" && forall n :: 1 <= n <= 1_200 ==> !Numeral(value, n)
    case InvalidCount => name == "COUNT" && forall n :: 1 <= n <= 10_000 ==> !Numeral(value, n)
    case InvalidUntil => name == "UNTIL" && forall d :: !SpellsDate(value, d)
    case UnsupportedOrdinalByDay => name == "BYDAY" && exists k :: DayRefused(Split(value, ','), k, e)
    case InvalidByDay => name == "BYDAY" && exists k :: DayRefused(Split(value, ','), k, e)
    case DuplicateByDay(_) => name == "BYDAY" && exists k :: DayRefused(Split(value, ','), k, e)
    case InvalidByMonthDay => name == "BYMONTHDAY" && exists k :: MonthDayRefused(Split(value, ','), k, e)
    case DuplicateByMonthDay(_) => name == "BYMONTHDAY" && exists k :: MonthDayRefused(Split(value, ','), k, e)
    case UnsupportedBySetPosition => name == "BYSETPOS"
    case UnsupportedTimeComponent(n) => n == name && name in {"BYHOUR", "BYMINUTE", "BYSECOND"}
    case UnknownPart(n) => n == name && name !in KNOWN
    case _ => false
  }

  const KNOWN := {"FREQ", "INTERVAL", "BYDAY", "BYMONTHDAY", "COUNT", "UNTIL", "BYSETPOS", "BYHOUR", "BYMINUTE", "BYSECOND"}

  lemma TokenReads(token: string)
    ensures ReadDay(token).Ok? <==> token in DAY_TOKENS
  {
    if ReadDay(token).Ok? {
      DayTokenMeans(token, ReadDay(token).value);
    }
  }

  lemma DaysRefused(tokens: seq<string>) returns (k: nat)
    requires Fold({}, tokens, CollectDay).Err?
    ensures DayRefused(tokens, k, Fold({}, tokens, CollectDay).error)
  {
    var none: set<DayOfWeek> := {};
    k := FoldFails(none, tokens, CollectDay);
    var days := Fold(none, tokens[..k], CollectDay).value;
    DaysCollect();
    CollectedIff(NamesDay(), CollectDay, tokens[..k], days);
    if ReadDay(tokens[k]).Ok? {
      var day := ReadDay(tokens[k]).value;
      DayIff(tokens[k], day);
      assert Named(NamesDay(), tokens[..k], day);
      var i :| 0 <= i < k && NamesDay()(tokens[..k][i], day);
      assert tokens[..k][i] == tokens[k];
    } else {
      TokenReads(tokens[k]);
      DayTokenRefused(tokens[k]);
    }
  }

  lemma MonthDaysRefused(tokens: seq<string>) returns (k: nat)
    requires Fold({}, tokens, CollectMonthDay).Err?
    ensures MonthDayRefused(tokens, k, Fold({}, tokens, CollectMonthDay).error)
  {
    var none: set<int> := {};
    k := FoldFails(none, tokens, CollectMonthDay);
    var days := Fold(none, tokens[..k], CollectMonthDay).value;
    MonthDaysCollect();
    CollectedIff(NamesMonthDay(), CollectMonthDay, tokens[..k], days);
    if ReadMonthDay(tokens[k]).Ok? {
      MonthDayIff(tokens[k], ReadMonthDay(tokens[k]).value);
    } else {
      forall day ensures !NamesMonthDay()(tokens[k], day) {
        MonthDayIff(tokens[k], day);
      }
    }
  }

  /** Every refusal of a field is true. */
  lemma FieldRefusedTruly(name: string, value: string)
    requires ReadField(name, value).Err?
    ensures FieldRefused(name, value, ReadField(name, value).error)
  {
    if name == "BYDAY" {
      var k := DaysRefused(Split(value, ','));
    } else if name == "BYMONTHDAY" {
      var k := MonthDaysRefused(Split(value, ','));
    } else if name == "UNTIL" {
      forall d ensures !SpellsDate(value, d) {
        UntilIff(value, d);
      }
    }
  }

  /** Some part before it has this name. */
  ghost predicate NameTaken(earlier: seq<string>, name: string) {
    exists j, i :: 0 <= j < |earlier| && EqualsAt(earlier[j], i) && Upper(earlier[j][..i]) == name
  }

  /** The complaint about a part, when the parts before it are understood: its form first, then its
      name, then its value. */
  ghost predicate PartRefused(earlier: seq<string>, part: string, e: Error) {
    match e
    case MalformedPart => forall i :: !EqualsAt(part, i)
    case DuplicatePart(name) => exists i :: EqualsAt(part, i) && Upper(part[..i]) == name && NameTaken(earlier, name)
    case _ => exists i :: EqualsAt(part, i) && !NameTaken(earlier, Upper(part[..i])) && FieldRefused(Upper(part[..i]), Upper(part[i + 1..]), e)
  }

  lemma NameTakenIff(earlier: seq<string>, name: string)
    requires Acceptable(earlier)
    ensures NameTaken(earlier, name) <==> NameSeen(earlier, name)
  {
    forall j | 0 <= j < |earlier|
      ensures forall i :: EqualsAt(earlier[j], i) ==> Upper(earlier[j][..i]) == FieldName(PartField(earlier[j]).value)
      ensures EqualsAt(earlier[j], FirstIndex(earlier[j], '='))
    {
      OwnName(earlier[j]);
    }
  }

  lemma OwnName(part: string)
    requires PartField(part).Some?
    ensures forall i :: EqualsAt(part, i) ==> Upper(part[..i]) == FieldName(PartField(part).value)
    ensures EqualsAt(part, FirstIndex(part, '='))
  {
    PartRead(part, FirstIndex(part, '='));
    NamedByField(ReadPart(part).value.0, ReadPart(part).value.1);
    forall i | EqualsAt(part, i) ensures Upper(part[..i]) == FieldName(PartField(part).value) {
      PartRead(part, i);
    }
  }

  ghost function NameOf(): string -> string {
    part => if PartField(part).Some? then FieldName(PartField(part).value) else ""
  }

  ghost predicate NameAt(parts: seq<string>, nameOf: string -> string, name: string) {
    exists i :: 0 <= i < |parts| && nameOf(parts[i]) == name
  }

  /** A step that adds one name to those seen leaves the names of all parts. */
  lemma {:induction false} NamesGather(parts: seq<string>, step: (Draft, string) -> Result<Draft, Error>, nameOf: string -> string, name: string)
    requires forall d, p {:trigger step(d, p)} :: step(d, p).Ok? ==> step(d, p).value.seen == d.seen + {nameOf(p)}
    requires Fold(BLANK, parts, step).Ok?
    ensures name in Fold(BLANK, parts, step).value.seen <==> NameAt(parts, nameOf, name)
  {
    if parts != [] {
      var n := |parts| - 1;
      NamesGather(parts[..n], step, nameOf, name);
      assert forall i :: 0 <= i < n ==> parts[..n][i] == parts[i];
    }
  }

  lemma SeenIffTaken(earlier: seq<string>, name: string)
    requires Acceptable(earlier)
    ensures Fold(BLANK, earlier, Step).Ok? && (name in Fold(BLANK, earlier, Step).value.seen <==> NameTaken(earlier, name))
  {
    PartsAcceptedIff(earlier, Freq(Daily));
    forall d, p | Step(d, p).Ok? ensures Step(d, p).value.seen == d.seen + {NameOf()(p)} {
      StepDenotes(d, p);
      AssignSeen(d, PartField(p).value);
    }
    NamesGather(earlier, Step, NameOf(), name);
    assert NameAt(earlier, NameOf(), name) <==> NameSeen(earlier, name);
    NameTakenIff(earlier, name);
  }

  lemma NamedPartRefused(earlier: seq<string>, part: string, i: int, e: Error)
    requires EqualsAt(part, i)
    requires if NameTaken(earlier, Upper(part[..i])) then e == DuplicatePart(Upper(part[..i]))
             else FieldRefused(Upper(part[..i]), Upper(part[i + 1..]), e)
    ensures PartRefused(earlier, part, e)
  {
  }

  /** The refusal of a part after parts that were understood is true. */
  lemma PartRefusedTruly(earlier: seq<string>, part: string)
    requires Acceptable(earlier) && Fold(BLANK, earlier, Step).Ok? && Step(Fold(BLANK, earlier, Step).value, part).Err?
    ensures PartRefused(earlier, part, Step(Fold(BLANK, earlier, Step).value, part).error)
  {
    var i := FirstIndex(part, '=');
    PartRead(part, i);
    if ReadPart(part).Ok? {
      var (name, value) := ReadPart(part).value;
      SeenIffTaken(earlier, name);
      if ReadField(name, value).Err? {
        FieldRefusedTruly(name, value);
      }
      NamedPartRefused(earlier, part, i, Step(Fold(BLANK, earlier, Step).value, part).error);
    } else {
      forall k ensures !EqualsAt(part, k) {
        PartRead(part, k);
      }
    }
  }

  /** The complaint about parts that are all understood, in this order. */
  ghost predicate RuleRefused(said: Field -> bool, e: Error) {
    match e
    case MissingFrequency => forall x :: !said(Freq(x))
    case MissingTermination => (exists x :: said(Freq(x))) && (forall n :: !said(CountOf(n))) && (forall d :: !said(UntilDate(d)))
    case ConflictingTermination => (exists x :: said(Freq(x))) && (exists n :: said(CountOf(n))) && (exists d :: said(UntilDate(d)))
    case WeeklyByMonthDay => said(Freq(Weekly)) && (exists t :: Ends(said, t)) && exists days :: days != {} && said(ByMonthDay(days))
    case _ => false
  }

  lemma FinishRefused(d: Draft)
    requires Finish(d).Err?
    ensures RuleRefused(HeldBy(d), Finish(d).error)
  {
    if d.frequency.Some? {
      assert HeldBy(d)(Freq(d.frequency.value));
      assert d.count.Some? ==> HeldBy(d)(CountOf(d.count.value));
      assert d.until.Some? ==> HeldBy(d)(UntilDate(d.until.value));
      if Finish(d).error.WeeklyByMonthDay? {
        EndsIff(d, if d.count.Some? then Count(d.count.value) else Until(d.until.value));
        assert HeldBy(d)(ByMonthDay(d.byMonthDay.value));
      }
    }
  }

  lemma RefusedAlike(said: Field -> bool, held: Field -> bool, e: Error)
    requires (forall f :: said(f) == held(f)) && RuleRefused(held, e)
    ensures RuleRefused(said, e)
  {
    if e.WeeklyByMonthDay? {
      var t :| Ends(held, t);
      assert Ends(said, t);
      var days :| days != {} && held(ByMonthDay(days));
      assert said(ByMonthDay(days));
    } else if !e.MissingFrequency? {
      var x :| held(Freq(x));
      assert said(Freq(x));
      if e.ConflictingTermination? {
        var n :| held(CountOf(n));
        var d :| held(UntilDate(d));
        assert said(CountOf(n)) && said(UntilDate(d));
      }
    }
  }

  lemma PartsRefused(parts: seq<string>)
    requires Acceptable(parts)
    ensures Fold(BLANK, parts, Step).Ok?
    ensures Finish(Fold(BLANK, parts, Step).value).Err? ==> RuleRefused(SaidBy(parts), Finish(Fold(BLANK, parts, Step).value).error)
  {
    PartsAcceptedIff(parts, Freq(Daily));
    var d := Fold(BLANK, parts, Step).value;
    if Finish(d).Err? {
      forall f ensures SaidBy(parts)(f) == HeldBy(d)(f) {
        SaysIff(parts, f);
        PartsAcceptedIff(parts, f);
      }
      FinishRefused(d);
      RefusedAlike(SaidBy(parts), HeldBy(d), Finish(d).error);
    }
  }

  ghost predicate RefusedAt(parts: seq<string>, k: int, e: Error) {
    0 <= k < |parts| && Understood(parts[..k]) && PartRefused(parts[..k], parts[k], e)
  }

  /** The complaint about a text: its size and characters first, then the first part that is not
      understood, and only then the rule as a whole. */
  ghost predicate TextRefused(text: string, e: Error) {
    if text == "" then e == Empty
    else if |text| > 1_024 then e == TooLong
    else if exists i :: 0 <= i < |text| && !('!' <= text[i] <= '~') then e == InvalidCharacters
    else if Body(text) == "" then e == Empty
    else
      var parts := Split(Body(text), ';');
      if Understood(parts) then RuleRefused(SaidBy(parts), e) else exists k :: RefusedAt(parts, k, e)
  }

  lemma PartsFail(parts: seq<string>) returns (k: nat)
    requires Fold(BLANK, parts, Step).Err?
    ensures RefusedAt(parts, k, Fold(BLANK, parts, Step).error)
  {
    k := FoldFails(BLANK, parts, Step);
    PartsAcceptedIff(parts[..k], Freq(Daily));
    UnderstoodIff(parts[..k]);
    PartRefusedTruly(parts[..k], parts[k]);
  }

  /** Every refusal of a text says what is wrong with it. */
  lemma RefusalMeaning(text: string)
    requires Parse(text).Err?
    ensures TextRefused(text, Parse(text).error)
  {
    if text != "" && |text| <= MAX_BYTES && AllGraphic(text) && Body(text) != "" {
      var parts := Split(Body(text), ';');
      UnderstoodIff(parts);
      PartsAcceptedIff(parts, Freq(Daily));
      if Acceptable(parts) {
        PartsRefused(parts);
      } else {
        var k := PartsFail(parts);
      }
    }
  }
}
