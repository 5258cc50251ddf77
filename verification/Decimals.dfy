/** Exact decimals: canonical spellings of signed millionths. */
module ProgressDecimals {
  import opened Base
  import opened Digits
  import opened Text

  const MAX_SCALED := 999_999_999_999_999_999
  const SCALE := 1_000_000
  const I64_MIN := -0x8000_0000_0000_0000

  datatype Error = InvalidSyntax | NonCanonical | TooPrecise | OutOfRange

  predicate Digitful(s: string) {
    s != "" && AllDigits(s)
  }

  /** Fraction digits as millionths. */
  function Millionths(digits: string): nat
    requires AllDigits(digits) && |digits| <= 6
  {
    Value(digits) * Pow10(6 - |digits|)
  }

  function Millions(whole: nat): nat {
    1_000_000 * whole
  }

  function Scaled(integer: string, fraction: Option<string>): nat
    requires AllDigits(integer) && (fraction.Some? ==> AllDigits(fraction.value) && |fraction.value| <= 6)
  {
    Millions(Value(integer)) + if fraction.Some? then Millionths(fraction.value) else 0
  }

  /** The magnitude of an unsigned spelling. */
  function ParseUnsigned(magnitude: string): Result<nat, Error> {
    var split := SplitOnce(magnitude, '.');
    if split.Some? then ParsePieces(split.value.0, Some(split.value.1)) else ParsePieces(magnitude, None)
  }

  function ParsePieces(integer: string, fraction: Option<string>): Result<nat, Error> {
    if !Digitful(integer) || (fraction.Some? && !Digitful(fraction.value)) then Err(InvalidSyntax)
    else if |integer| > 1 && integer[0] == '0' then Err(NonCanonical)
    else if fraction.Some? && |fraction.value| > 6 then Err(TooPrecise)
    else if fraction.Some? && fraction.value[|fraction.value| - 1] == '0' then Err(NonCanonical)
    else if |integer| > 12 then Err(OutOfRange)
    else if Scaled(integer, fraction) > MAX_SCALED then Err(OutOfRange)
    else Ok(Scaled(integer, fraction))
  }

  function WithSign(negative: bool, magnitude: Result<nat, Error>): Result<int, Error> {
    match magnitude
    case Err(error) => Err(error)
    case Ok(n) => if negative && n == 0 then Err(NonCanonical) else Ok(if negative then 0 - n else n)
  }

  /** `parse_progress_decimal` */
  function Parse(value: string): Result<int, Error> {
    if value != "" && value[0] == '-' then WithSign(true, ParseUnsigned(value[1..]))
    else WithSign(false, ParseUnsigned(value))
  }

  function TrimZeros(s: string): string {
    if s != "" && s[|s| - 1] == '0' then TrimZeros(s[..|s| - 1]) else s
  }

  function FormatUnsigned(magnitude: nat): string {
    var integer, fraction := magnitude / 1_000_000, magnitude % 1_000_000;
    if fraction == 0 then Print(integer) else Print(integer) + "." + TrimZeros(Padded(fraction, 6))
  }

  /** `format_progress_decimal`, on the 64-bit integers. */
  function Format(scaled: int): Option<string>
    requires I64_MIN <= scaled <= I64_MAX
  {
    if scaled == I64_MIN then None
    else
      var magnitude := if scaled < 0 then -scaled else scaled;
      if magnitude > MAX_SCALED then None
      else Some(if scaled < 0 then "-" + FormatUnsigned(magnitude) else FormatUnsigned(magnitude))
  }

  // ---- Fractions ----

  function Zeros(n: nat): string {
    seq(n, _ => '0')
  }

  lemma TenfoldProduct(a: nat, b: nat, c: nat, product: nat)
    requires product == a * b && c == 10 * b
    ensures 10 * product == a * c
  {
  }

  lemma OneMoreZero(s: string, n: nat)
    requires n > 0
    ensures s + Zeros(n) == (s + Zeros(n - 1)) + ['0']
  {
  }

  lemma {:induction false} ValueZeros(s: string, n: nat)
    requires AllDigits(s)
    ensures AllDigits(s + Zeros(n)) && Value(s + Zeros(n)) == Value(s) * Pow10(n)
  {
    if n == 0 {
      assert s + Zeros(0) == s;
    } else {
      var shorter := s + Zeros(n - 1);
      ValueZeros(s, n - 1);
      ValueAppend(shorter, '0');
      OneMoreZero(s, n);
      TenfoldProduct(Value(s), Pow10(n - 1), Pow10(n), Value(shorter));
    }
  }

  lemma {:induction false} TrimOnlyZeros(s: string)
    ensures |TrimZeros(s)| <= |s| && s == TrimZeros(s) + Zeros(|s| - |TrimZeros(s)|)
    ensures TrimZeros(s) != "" ==> TrimZeros(s)[|TrimZeros(s)| - 1] != '0'
  {
    if s != "" && s[|s| - 1] == '0' {
      TrimOnlyZeros(s[..|s| - 1]);
    }
  }

  lemma {:induction false} TrimAppended(s: string, n: nat)
    requires s != "" && s[|s| - 1] != '0'
    ensures TrimZeros(s + Zeros(n)) == s
  {
    if n == 0 {
      assert s + Zeros(0) == s;
    } else {
      TrimAppended(s, n - 1);
      assert (s + Zeros(n))[..|s| + n - 1] == s + Zeros(n - 1);
    }
  }

  lemma PrefixDigits(s: string, t: string)
    requires AllDigits(s + t)
    ensures AllDigits(s)
  {
    assert forall i :: 0 <= i < |s| ==> s[i] == (s + t)[i];
  }

  lemma Million()
    ensures Pow10(6) == SCALE && Pow10(12) == 1_000_000_000_000
  {
    assert Pow10(3) == 1000;
    assert Pow10(6) == 1000 * Pow10(3);
    assert Pow10(9) == 1000 * Pow10(6);
    assert Pow10(12) == 1000 * Pow10(9);
  }

  /** The printed fraction reads back. */
  lemma FractionReads(fraction: nat)
    requires 0 < fraction < SCALE
    ensures var t := TrimZeros(Padded(fraction, 6));
      && Digitful(t) && |t| <= 6 && t[|t| - 1] != '0'
      && Millionths(t) == fraction
  {
    Million();
    var p := Padded(fraction, 6);
    var t := TrimZeros(p);
    PaddedReads(fraction, 6);
    TrimOnlyZeros(p);
    PrefixDigits(t, Zeros(6 - |t|));
    ValueZeros(t, 6 - |t|);
  }

  /** A read fraction prints back. */
  lemma FractionPrints(digits: string)
    requires Digitful(digits) && |digits| <= 6 && digits[|digits| - 1] != '0'
    ensures 0 < Millionths(digits) < SCALE
    ensures TrimZeros(Padded(Millionths(digits), 6)) == digits
  {
    var n := 6 - |digits|;
    var filled := digits + Zeros(n);
    ValueZeros(digits, n);
    assert Millionths(digits) == Value(filled);
    assert Value(filled) < SCALE by {
      Million();
      ValueBelow(filled);
    }
    assert TrimZeros(Padded(Value(filled), 6)) == digits by {
      ReadsPadded(filled);
      TrimAppended(digits, n);
    }
    EndsPositive(digits);
    PositiveProduct(Value(digits), Pow10(n));
  }

  lemma EndsPositive(digits: string)
    requires Digitful(digits) && digits[|digits| - 1] != '0'
    ensures Value(digits) > 0
  {
  }

  lemma PositiveProduct(a: nat, b: nat)
    requires a > 0 && b > 0
    ensures a * b > 0
  {
  }

  // ---- Unsigned spellings ----

  lemma NoDot(s: string)
    requires AllDigits(s)
    ensures '.' !in s && '-' !in s
  {
  }

  lemma DivMod(whole: nat, part: nat)
    requires part < SCALE
    ensures (Millions(whole) + part) / 1_000_000 == whole && (Millions(whole) + part) % 1_000_000 == part
  {
  }

  /** With at most twelve integer digits the range check after the addition never fails. */
  lemma NeverOutOfRange(integer: string, part: nat)
    requires AllDigits(integer) && |integer| <= 12 && part < SCALE
    ensures Millions(Value(integer)) + part <= MAX_SCALED
  {
    Million();
    ValueBelow(integer);
    Pow10Monotone(|integer|, 12);
  }

  lemma {:induction false} Pow10Monotone(a: nat, b: nat)
    requires a <= b
    ensures Pow10(a) <= Pow10(b)
  {
    if a < b {
      Pow10Monotone(a, b - 1);
    }
  }

  lemma UnsignedReads(magnitude: nat)
    requires magnitude <= MAX_SCALED
    ensures ParseUnsigned(FormatUnsigned(magnitude)) == Ok(magnitude)
    ensures IsDigit(FormatUnsigned(magnitude)[0])
  {
    var integer, fraction := magnitude / 1_000_000, magnitude % 1_000_000;
    var whole := Print(integer);
    Million();
    PrintReads(integer);
    PrintLength(integer, 12);
    NoDot(whole);
    if fraction == 0 {
      SplitOnceNone(whole, '.');
    } else {
      var t := TrimZeros(Padded(fraction, 6));
      FractionReads(fraction);
      SplitOnceAt(whole, t, '.');
    }
  }

  lemma FormatParts(whole: nat, part: nat)
    requires part < SCALE
    ensures FormatUnsigned(Millions(whole) + part) == if part == 0 then Print(whole) else Print(whole) + "." + TrimZeros(Padded(part, 6))
  {
    DivMod(whole, part);
  }

  /** What an accepted pair of digit strings looks like. */
  ghost predicate Accepted(integer: string, fraction: Option<string>) {
    && Shortest(integer) && |integer| <= 12
    && (fraction.Some? ==> Digitful(fraction.value) && |fraction.value| <= 6 && fraction.value[|fraction.value| - 1] != '0')
  }

  function Spelled(integer: string, fraction: Option<string>): string {
    if fraction.Some? then integer + "." + fraction.value else integer
  }

  lemma PiecesAccepted(integer: string, fraction: Option<string>)
    requires ParsePieces(integer, fraction).Ok?
    ensures Accepted(integer, fraction) && ParsePieces(integer, fraction).value == Scaled(integer, fraction) <= MAX_SCALED
  {
  }

  lemma WholeSpelled(whole: nat, integer: string)
    requires Print(whole) == integer
    ensures FormatUnsigned(Millions(whole)) == integer
  {
    FormatParts(whole, 0);
  }

  lemma FractionSpelled(whole: nat, integer: string, part: nat, digits: string)
    requires Print(whole) == integer && 0 < part < SCALE && TrimZeros(Padded(part, 6)) == digits
    ensures FormatUnsigned(Millions(whole) + part) == integer + "." + digits
  {
    FormatParts(whole, part);
  }

  lemma ScaledWhole(integer: string)
    requires Accepted(integer, None)
    ensures FormatUnsigned(Scaled(integer, None)) == integer
  {
    ReadsPrint(integer);
    WholeSpelled(Value(integer), integer);
    assert Scaled(integer, None) == Millions(Value(integer));
  }

  lemma ScaledFraction(integer: string, digits: string)
    requires Accepted(integer, Some(digits))
    ensures FormatUnsigned(Scaled(integer, Some(digits))) == integer + "." + digits
  {
    ReadsPrint(integer);
    FractionPrints(digits);
    FractionSpelled(Value(integer), integer, Millionths(digits), digits);
    assert Scaled(integer, Some(digits)) == Millions(Value(integer)) + Millionths(digits);
  }

  lemma ScaledPrints(integer: string, fraction: Option<string>)
    requires Accepted(integer, fraction)
    ensures FormatUnsigned(Scaled(integer, fraction)) == Spelled(integer, fraction)
  {
    match fraction
    case None => ScaledWhole(integer);
    case Some(digits) => ScaledFraction(integer, digits);
  }

  lemma PiecesPrint(integer: string, fraction: Option<string>)
    requires ParsePieces(integer, fraction).Ok?
    ensures ParsePieces(integer, fraction).value <= MAX_SCALED
    ensures FormatUnsigned(ParsePieces(integer, fraction).value) == Spelled(integer, fraction)
  {
    PiecesAccepted(integer, fraction);
    ScaledPrints(integer, fraction);
  }

  lemma UnsignedPrints(s: string)
    requires ParseUnsigned(s).Ok?
    ensures ParseUnsigned(s).value <= MAX_SCALED && FormatUnsigned(ParseUnsigned(s).value) == s
  {
    var split := SplitOnce(s, '.');
    if split.Some? {
      PiecesPrint(split.value.0, Some(split.value.1));
      assert s == split.value.0 + "." + split.value.1;
    } else {
      PiecesPrint(s, None);
    }
  }

  // ---- The bijection ----

  lemma SignedReads(negative: bool, n: nat, body: string)
    requires ParseUnsigned(body) == Ok(n) && body != "" && body[0] != '-' && !(negative && n == 0)
    ensures Parse(if negative then "-" + body else body) == Ok(if negative then 0 - n else n)
  {
    assert ("-" + body)[1..] == body;
  }

  /** Every supported value has a spelling and the spelling reads back as that value. */
  lemma FormatThenParse(scaled: int)
    requires I64_MIN <= scaled <= I64_MAX
    ensures Format(scaled).Some? <==> -MAX_SCALED <= scaled <= MAX_SCALED
    ensures Format(scaled).Some? ==> Parse(Format(scaled).value) == Ok(scaled)
  {
    if -MAX_SCALED <= scaled <= MAX_SCALED {
      var n: nat := if scaled < 0 then -scaled else scaled;
      UnsignedReads(n);
      SignedReads(scaled < 0, n, FormatUnsigned(n));
      SignedPrints(scaled < 0, n, FormatUnsigned(n));
    }
  }

  lemma SignedPrints(negative: bool, n: nat, body: string)
    requires n <= MAX_SCALED && FormatUnsigned(n) == body && !(negative && n == 0)
    ensures Format(if negative then 0 - n else n) == Some(if negative then "-" + body else body)
  {
  }

  /** Every accepted spelling is the one that printing its value gives. */
  lemma ParseThenFormat(value: string)
    requires Parse(value).Ok?
    ensures -MAX_SCALED <= Parse(value).value <= MAX_SCALED
    ensures Format(Parse(value).value) == Some(value)
  {
    var negative := value != "" && value[0] == '-';
    var body := if negative then value[1..] else value;
    UnsignedPrints(body);
    SignedPrints(negative, ParseUnsigned(body).value, body);
    assert negative ==> value == "-" + body;
  }

  /** Two accepted spellings of one value are the same text. */
  lemma OneSpelling(a: string, b: string)
    requires Parse(a).Ok? && Parse(a) == Parse(b)
    ensures a == b
  {
    ParseThenFormat(a);
    ParseThenFormat(b);
  }

  /** The products and sums of an unsigned parse stay within the signed 64-bit range, and the final
      range check only confirms what the digit counts already guarantee. */
  lemma ParseFitsI64(integer: string, fraction: Option<string>)
    requires Digitful(integer) && |integer| <= 12
    requires fraction.Some? ==> Digitful(fraction.value) && |fraction.value| <= 6 && fraction.value[|fraction.value| - 1] != '0'
    ensures Millions(Value(integer)) <= Scaled(integer, fraction) <= MAX_SCALED <= I64_MAX
  {
    if fraction.Some? {
      FractionPrints(fraction.value);
      NeverOutOfRange(integer, Millionths(fraction.value));
    } else {
      NeverOutOfRange(integer, 0);
    }
  }
}
