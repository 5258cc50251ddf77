/** Spellings that denote the same rule: letter case, the prefix, and the order of parts and list entries. */
module RecurrenceLaws {
  import opened Base
  import opened Calendar
  import opened Text
  import opened Folds
  import opened RecurrenceRules

  // ---- Letter case ----

  lemma UpperTwice(s: string)
    ensures Upper(Upper(s)) == Upper(s)
  {
  }

  lemma UpperSlices(s: string, i: nat)
    requires i <= |s|
    ensures Upper(s)[..i] == Upper(s[..i]) && Upper(s)[i..] == Upper(s[i..])
  {
  }

  predicate Caseless(c: char) {
    !('A' <= c <= 'Z') && !('a' <= c <= 'z')
  }

  lemma UpperHas(s: string, c: char)
    requires Caseless(c)
    ensures c in Upper(s) <==> c in s
  {
    if c in s {
      var i :| 0 <= i < |s| && s[i] == c;
      assert Upper(s)[i] == c;
    }
    if c in Upper(s) {
      var i :| 0 <= i < |s| && Upper(s)[i] == c;
      assert s[i] == c;
    }
  }

  lemma UpperConcat(a: string, b: string)
    ensures Upper(a + b) == Upper(a) + Upper(b)
  {
  }

  lemma UpperJoin2(a: string, c: char, b: string)
    requires Caseless(c)
    ensures Upper(a + [c] + b) == Upper(a) + [c] + Upper(b)
  {
    UpperConcat(a + [c], b);
    UpperConcat(a, [c]);
    assert Upper([c]) == [c];
  }

  lemma {:induction false} UpperJoin(pieces: seq<string>, c: char)
    requires pieces != [] && Caseless(c)
    ensures Upper(Join(pieces, c)) == Join(Mapped(Upper, pieces), c)
  {
    if |pieces| > 1 {
      assert Mapped(Upper, pieces)[1..] == Mapped(Upper, pieces[1..]);
      UpperJoin(pieces[1..], c);
      UpperJoin2(pieces[0], c, Join(pieces[1..], c));
    }
  }

  lemma UpperSplit(s: string, c: char)
    requires Caseless(c)
    ensures Split(Upper(s), c) == Mapped(Upper, Split(s, c))
  {
    var pieces := Split(s, c);
    JoinSplit(s, c);
    UpperJoin(pieces, c);
    forall i | 0 <= i < |pieces| ensures c !in Mapped(Upper, pieces)[i] {
      UpperHas(pieces[i], c);
    }
    SplitJoin(Mapped(Upper, pieces), c);
  }

  lemma UpperFirstIndex(s: string, c: char)
    requires Caseless(c)
    ensures FirstIndex(Upper(s), c) == FirstIndex(s, c)
  {
    var i := FirstIndex(s, c);
    UpperSlices(s, i);
    UpperHas(s[..i], c);
    FirstIndexUnique(Upper(s), c, i);
  }

  lemma UpperReadPart(part: string)
    ensures ReadPart(Upper(part)) == ReadPart(part)
  {
    var i := FirstIndex(part, '=');
    UpperFirstIndex(part, '=');
    if i < |part| {
      UpperSlices(part, i);
      UpperSlices(part, i + 1);
      UpperHas(part[i + 1..], '=');
      UpperTwice(part[..i]);
      UpperTwice(part[i + 1..]);
    }
  }

  lemma UpperParts(parts: seq<string>)
    ensures Fold(BLANK, Mapped(Upper, parts), Step) == Fold(BLANK, parts, Step)
  {
    forall d, p ensures Step(d, Upper(p)) == Step(d, p) {
      UpperReadPart(p);
    }
    FoldMapped(BLANK, parts, Upper, Step);
  }

  lemma UpperBody(text: string)
    ensures Body(Upper(text)) == Upper(Body(text))
  {
    if |text| >= 6 {
      UpperSlices(text, 6);
      UpperTwice(text[..6]);
    }
  }

  lemma UpperParseBody(body: string)
    ensures ParseBody(Upper(body)) == ParseBody(body)
  {
    UpperSplit(body, ';');
    UpperParts(Split(body, ';'));
  }

  lemma UpperGraphic(text: string)
    ensures AllGraphic(Upper(text)) <==> AllGraphic(text)
  {
    if AllGraphic(Upper(text)) {
      forall i | 0 <= i < |text| ensures IsGraphic(text[i]) {
        assert IsGraphic(Upper(text)[i]);
      }
    }
  }

  /** Texts that differ only in letter case parse alike, errors included. */
  lemma CaseIrrelevant(a: string, b: string)
    requires Upper(a) == Upper(b)
    ensures Parse(a) == Parse(b)
  {
    UpperParses(a);
    UpperParses(b);
  }

  lemma UpperParses(text: string)
    ensures Parse(Upper(text)) == Parse(text)
  {
    UpperGraphic(text);
    UpperBody(text);
    UpperParseBody(Body(text));
  }

  // ---- The prefix ----

  /** A prefix in any letter case may be added to a text that has none and has room for it. */
  lemma PrefixIrrelevant(prefix: string, text: string)
    requires |prefix| == 6 && Upper(prefix) == "RRULE:"
    requires text != "" && !HasPrefix(text) && |text| + 6 <= MAX_BYTES
    ensures Parse(prefix + text) == Parse(text)
  {
    var long := prefix + text;
    assert long[..6] == prefix && long[6..] == text;
    PrefixGraphic(prefix, text);
  }

  lemma PrefixGraphic(prefix: string, text: string)
    requires |prefix| == 6 && Upper(prefix) == "RRULE:"
    ensures AllGraphic(prefix + text) <==> AllGraphic(text)
  {
    UpperGraphic(prefix);
    assert AllGraphic("RRULE:");
    forall i | 0 <= i < |text| ensures (prefix + text)[6 + i] == text[i] {
    }
  }

  // ---- The order of parts ----

  lemma NamedByField(name: string, value: string)
    requires ReadField(name, value).Ok?
    ensures FieldName(ReadField(name, value).value) == name
  {
  }

  lemma AssignSwaps(d: Draft, f: Field, g: Field)
    requires FieldName(f) != FieldName(g)
    ensures Assign(Assign(d, f), g) == Assign(Assign(d, g), f)
  {
    assert (d.seen + {FieldName(f)}) + {FieldName(g)} == (d.seen + {FieldName(g)}) + {FieldName(f)};
  }

  lemma PartsSwap(d: Draft, p: string, q: string)
    ensures Swap(Step, d, p, q)
  {
    if ReadPart(p).Ok? && ReadPart(q).Ok? {
      var a, b := ReadPart(p).value, ReadPart(q).value;
      ReadsSwap(d, a.0, a.1, b.0, b.1);
    }
  }

  lemma ReadsSwap(d: Draft, a: string, x: string, b: string, y: string)
    ensures ReadInto(d, a, x).Ok? && ReadInto(ReadInto(d, a, x).value, b, y).Ok? ==>
      && ReadInto(d, b, y).Ok?
      && ReadInto(ReadInto(d, b, y).value, a, x) == ReadInto(ReadInto(d, a, x).value, b, y)
  {
    if ReadField(a, x).Ok? && ReadField(b, y).Ok? {
      var f, g := ReadField(a, x).value, ReadField(b, y).value;
      NamedByField(a, x);
      NamedByField(b, y);
      AssignSeen(d, f);
      AssignSeen(d, g);
      if a != b {
        AssignSwaps(d, f, g);
      }
    }
  }

  lemma AssignSeen(d: Draft, f: Field)
    ensures Assign(d, f).seen == d.seen + {FieldName(f)}
  {
  }

  /** Writing the parts in another order does not change the rule. */
  lemma PartOrderIrrelevant(a: string, b: string)
    requires Parse(a).Ok? && |b| <= MAX_BYTES && AllGraphic(b)
    requires multiset(Split(Body(a), ';')) == multiset(Split(Body(b), ';'))
    ensures Parse(b) == Parse(a)
  {
    var ps, qs := Split(Body(a), ';'), Split(Body(b), ';');
    forall d, p, q ensures Swap(Step, d, p, q) {
      PartsSwap(d, p, q);
    }
    FoldPermute(BLANK, ps, qs, Step);
    EmptyBodyFails();
  }

  lemma EmptyBodyFails()
    ensures Fold(BLANK, Split("", ';'), Step).Err?
  {
    assert Split("", ';') == [""];
    FoldAppend(BLANK, [], "", Step);
    assert [] + [""] == [""];
  }

  // ---- What a list of parts means ----

  /** The field that a part denotes by itself. */
  ghost function PartField(part: string): Option<Field> {
    match ReadPart(part)
    case Err(_) => None
    case Ok(pair) => if ReadField(pair.0, pair.1).Ok? then Some(ReadField(pair.0, pair.1).value) else None
  }

  ghost predicate EachDenotes(parts: seq<string>) {
    forall i :: 0 <= i < |parts| ==> PartField(parts[i]).Some?
  }

  ghost predicate NamesDistinct(parts: seq<string>)
    requires EachDenotes(parts)
  {
    forall i, j :: 0 <= i < j < |parts| ==> FieldName(PartField(parts[i]).value) != FieldName(PartField(parts[j]).value)
  }

  ghost predicate Acceptable(parts: seq<string>) {
    EachDenotes(parts) && NamesDistinct(parts)
  }

  ghost predicate NameSeen(parts: seq<string>, name: string) {
    exists i :: 0 <= i < |parts| && PartField(parts[i]).Some? && FieldName(PartField(parts[i]).value) == name
  }

  ghost predicate Denoted(parts: seq<string>, f: Field) {
    exists i :: 0 <= i < |parts| && PartField(parts[i]) == Some(f)
  }

  ghost predicate HasField(d: Draft, f: Field) {
    match f
    case Freq(x) => d.frequency == Some(x)
    case Interval(x) => d.interval == Some(x)
    case ByDay(x) => d.byDay == Some(x)
    case ByMonthDay(x) => d.byMonthDay == Some(x)
    case CountOf(x) => d.count == Some(x)
    case UntilDate(x) => d.until == Some(x)
  }

  lemma StepDenotes(d: Draft, part: string)
    ensures Step(d, part).Ok? <==> PartField(part).Some? && FieldName(PartField(part).value) !in d.seen
    ensures Step(d, part).Ok? ==> Step(d, part).value == Assign(d, PartField(part).value)
  {
    if ReadPart(part).Ok? && PartField(part).Some? {
      NamedByField(ReadPart(part).value.0, ReadPart(part).value.1);
    }
  }

  lemma DenotedAppend(parts: seq<string>, p: string)
    ensures Acceptable(parts + [p]) <==>
      Acceptable(parts) && PartField(p).Some? && !NameSeen(parts, FieldName(PartField(p).value))
    ensures forall f :: Denoted(parts + [p], f) <==> Denoted(parts, f) || PartField(p) == Some(f)
    ensures forall name :: NameSeen(parts + [p], name) <==>
      NameSeen(parts, name) || (PartField(p).Some? && FieldName(PartField(p).value) == name)
  {
    var all := parts + [p];
    assert forall i :: 0 <= i < |parts| ==> all[i] == parts[i];
    assert all[|parts|] == p;
  }

  lemma AssignHas(d: Draft, f: Field, g: Field)
    requires FieldName(f) !in d.seen && (HasField(d, g) ==> FieldName(g) in d.seen)
    ensures HasField(Assign(d, f), g) <==> HasField(d, g) || f == g
  {
  }

  /** The parts are accepted exactly when each one denotes a field by itself and no two denote the
      same one, and the draft then holds exactly the denoted fields. */
  lemma {:induction false} PartsAcceptedIff(parts: seq<string>, f: Field)
    ensures Fold(BLANK, parts, Step).Ok? <==> Acceptable(parts)
    ensures Fold(BLANK, parts, Step).Ok? ==>
      && (HasField(Fold(BLANK, parts, Step).value, f) <==> Denoted(parts, f))
      && (FieldName(f) in Fold(BLANK, parts, Step).value.seen <==> NameSeen(parts, FieldName(f)))
    decreases |parts|
  {
    if parts != [] {
      var rest, p := parts[..|parts| - 1], parts[|parts| - 1];
      assert parts == rest + [p];
      PartsAcceptedIff(rest, f);
      FoldAppend(BLANK, rest, p, Step);
      DenotedAppend(rest, p);
      if Fold(BLANK, rest, Step).Ok? {
        var d := Fold(BLANK, rest, Step).value;
        StepDenotes(d, p);
        if PartField(p).Some? {
          var g := PartField(p).value;
          PartsAcceptedIff(rest, g);
          if Step(d, p).Ok? {
            DenotedSeen(rest, f);
            AssignSeen(d, g);
            AssignHas(d, g, f);
          }
        }
      }
    }
  }

  lemma DenotedSeen(parts: seq<string>, f: Field)
    ensures Denoted(parts, f) ==> NameSeen(parts, FieldName(f))
  {
  }

  // ---- The order of list entries ----

  /** The entries of BYDAY and of BYMONTHDAY may come in any order. */
  lemma DayOrderIrrelevant(a: string, b: string)
    requires multiset(Split(a, ',')) == multiset(Split(b, ','))
    ensures ReadField("BYDAY", a).Ok? ==> ReadField("BYDAY", b) == ReadField("BYDAY", a)
    ensures ReadField("BYMONTHDAY", a).Ok? ==> ReadField("BYMONTHDAY", b) == ReadField("BYMONTHDAY", a)
  {
    var none: set<DayOfWeek>, nothing: set<int> := {}, {};
    if Fold(none, Split(a, ','), CollectDay).Ok? {
      forall s, p, q ensures Swap(CollectDay, s, p, q) {
        DaysSwap(s, p, q);
      }
      FoldPermute(none, Split(a, ','), Split(b, ','), CollectDay);
    }
    if Fold(nothing, Split(a, ','), CollectMonthDay).Ok? {
      forall s, p, q ensures Swap(CollectMonthDay, s, p, q) {
        MonthDaysSwap(s, p, q);
      }
      FoldPermute(nothing, Split(a, ','), Split(b, ','), CollectMonthDay);
    }
  }

  lemma DaysSwap(s: set<DayOfWeek>, p: string, q: string)
    ensures Swap(CollectDay, s, p, q)
  {
    if CollectDay(s, p).Ok? && CollectDay(CollectDay(s, p).value, q).Ok? {
      var x, y := ReadDay(p).value, ReadDay(q).value;
      assert s + {x} + {y} == s + {y} + {x};
    }
  }

  lemma MonthDaysSwap(s: set<int>, p: string, q: string)
    ensures Swap(CollectMonthDay, s, p, q)
  {
    if CollectMonthDay(s, p).Ok? && CollectMonthDay(CollectMonthDay(s, p).value, q).Ok? {
      var x, y := ReadMonthDay(p).value, ReadMonthDay(q).value;
      assert s + {x} + {y} == s + {y} + {x};
    }
  }
}
