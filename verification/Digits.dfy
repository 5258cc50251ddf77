/** Decimal digit strings: their value, plain printing and zero-padded printing. */
module Digits {

  predicate IsDigit(c: char) {
    '0' <= c <= '9'
  }

  predicate AllDigits(s: string) {
    forall i :: 0 <= i < |s| ==> IsDigit(s[i])
  }

  function DigitValue(c: char): nat
    requires IsDigit(c)
  {
    c as int - '0' as int
  }

  function DigitChar(n: nat): (c: char)
    requires n < 10
    ensures IsDigit(c) && DigitValue(c) == n
  {
    (n + '0' as int) as char
  }

  function Pow10(k: nat): (p: nat)
    ensures p >= 1
  {
    if k == 0 then 1 else 10 * Pow10(k - 1)
  }

  function Value(s: string): nat
    requires AllDigits(s)
  {
    if s == "" then 0 else 10 * Value(s[..|s| - 1]) + DigitValue(s[|s| - 1])
  }

  /** The shortest spelling. */
  function Print(n: nat): (s: string)
    ensures s != "" && AllDigits(s)
  {
    if n < 10 then [DigitChar(n)] else Print(n / 10) + [DigitChar(n % 10)]
  }

  /** Exactly `width` digits, with leading zeros. */
  function Padded(n: nat, width: nat): (s: string)
    ensures |s| == width && AllDigits(s)
  {
    if width == 0 then "" else Padded(n / 10, width - 1) + [DigitChar(n % 10)]
  }

  predicate Shortest(s: string) {
    s != "" && AllDigits(s) && (|s| > 1 ==> s[0] != '0')
  }

  lemma ValueAppend(s: string, c: char)
    requires AllDigits(s) && IsDigit(c)
    ensures AllDigits(s + [c]) && Value(s + [c]) == 10 * Value(s) + DigitValue(c)
  {
    assert (s + [c])[..|s|] == s;
  }

  lemma {:induction false} ValueBelow(s: string)
    requires AllDigits(s)
    ensures Value(s) < Pow10(|s|)
  {
    if s != "" {
      ValueBelow(s[..|s| - 1]);
    }
  }

  /** Printing and reading back. */
  lemma {:induction false} PrintReads(n: nat)
    ensures Shortest(Print(n)) && Value(Print(n)) == n
    ensures n > 0 ==> Print(n)[0] != '0'
  {
    if n >= 10 {
      PrintReads(n / 10);
      ValueAppend(Print(n / 10), DigitChar(n % 10));
    } else {
      ValueAppend("", DigitChar(n));
      assert "" + [DigitChar(n)] == Print(n);
    }
  }

  lemma {:induction false} PaddedReads(n: nat, width: nat)
    requires n < Pow10(width)
    ensures Value(Padded(n, width)) == n
  {
    if width > 0 {
      PaddedReads(n / 10, width - 1);
      ValueAppend(Padded(n / 10, width - 1), DigitChar(n % 10));
    }
  }

  lemma TenTimes(v: nat, d: nat)
    requires d < 10
    ensures (10 * v + d) / 10 == v && (10 * v + d) % 10 == d
  {
  }

  lemma DigitReads(c: char)
    requires IsDigit(c)
    ensures DigitChar(DigitValue(c)) == c
  {
  }

  lemma LastDigit(s: string)
    requires s != "" && AllDigits(s)
    ensures AllDigits(s[..|s| - 1]) && s == s[..|s| - 1] + [s[|s| - 1]]
    ensures Value(s) / 10 == Value(s[..|s| - 1]) && Value(s) % 10 == DigitValue(s[|s| - 1])
    ensures DigitChar(DigitValue(s[|s| - 1])) == s[|s| - 1]
  {
    var rest, c := s[..|s| - 1], s[|s| - 1];
    assert s == rest + [c];
    ValueAppend(rest, c);
    TenTimes(Value(rest), DigitValue(c));
    DigitReads(c);
  }

  lemma {:induction false} ShortestPositive(s: string)
    requires s != "" && AllDigits(s) && s[0] != '0'
    ensures Value(s) > 0
  {
    if |s| > 1 {
      ShortestPositive(s[..|s| - 1]);
    } else {
      assert s[..0] == "";
    }
  }

  /** Reading and printing back: the shortest spelling is unique. */
  lemma {:induction false} ReadsPrint(s: string)
    requires Shortest(s)
    ensures Print(Value(s)) == s
  {
    LastDigit(s);
    if |s| == 1 {
      assert s[..0] == "";
    } else {
      ReadsPrint(s[..|s| - 1]);
      ShortestPositive(s[..|s| - 1]);
    }
  }

  lemma {:induction false} ReadsPadded(s: string)
    requires AllDigits(s)
    ensures Padded(Value(s), |s|) == s
  {
    if s != "" {
      LastDigit(s);
      ReadsPadded(s[..|s| - 1]);
    }
  }

  lemma {:induction false} PrintLength(n: nat, width: nat)
    requires n < Pow10(width) && width > 0
    ensures |Print(n)| <= width
  {
    if n >= 10 {
      PrintLength(n / 10, width - 1);
    }
  }
}
