/** Splitting, joining and upper-casing text, one `char` per byte. */
module Text {
  import opened Base

  /** The index of the first `c`, or the length when there is none. */
  function FirstIndex(s: string, c: char): (i: nat)
    ensures i <= |s| && c !in s[..i] && (i < |s| ==> s[i] == c)
  {
    if s == "" || s[0] == c then 0
    else
      var rest := FirstIndex(s[1..], c);
      assert s[..rest + 1] == [s[0]] + s[1..][..rest];
      rest + 1
  }

  function SplitOnce(s: string, c: char): Option<(string, string)> {
    var i := FirstIndex(s, c);
    if i < |s| then Some((s[..i], s[i + 1..])) else None
  }

  lemma FirstIndexUnique(s: string, c: char, i: nat)
    requires i <= |s| && c !in s[..i] && (i < |s| ==> s[i] == c)
    ensures FirstIndex(s, c) == i
  {
    var j := FirstIndex(s, c);
    assert forall k :: 0 <= k < i ==> s[..i][k] == s[k];
    assert forall k :: 0 <= k < j ==> s[..j][k] == s[k];
  }

  lemma SplitOnceAt(a: string, b: string, c: char)
    requires c !in a
    ensures SplitOnce(a + [c] + b, c) == Some((a, b))
  {
    var s := a + [c] + b;
    assert s[..|a|] == a && s[|a| + 1..] == b;
    FirstIndexUnique(s, c, |a|);
  }

  lemma SplitOnceNone(a: string, c: char)
    requires c !in a
    ensures SplitOnce(a, c) == None
  {
    assert a[..|a|] == a;
    FirstIndexUnique(a, c, |a|);
  }

  /** All pieces between the separators; a text without one is a single piece. */
  function Split(s: string, c: char): (pieces: seq<string>)
    ensures pieces != []
    decreases |s|
  {
    var i := FirstIndex(s, c);
    if i == |s| then [s] else [s[..i]] + Split(s[i + 1..], c)
  }

  function Join(pieces: seq<string>, c: char): string
    requires pieces != []
  {
    if |pieces| == 1 then pieces[0] else pieces[0] + [c] + Join(pieces[1..], c)
  }

  ghost predicate Free(pieces: seq<string>, c: char) {
    forall i :: 0 <= i < |pieces| ==> c !in pieces[i]
  }

  lemma SplitPrepend(p: string, rest: string, c: char)
    requires c !in p
    ensures Split(p + [c] + rest, c) == [p] + Split(rest, c)
  {
    var s := p + [c] + rest;
    assert s[..|p|] == p && s[|p| + 1..] == rest;
    FirstIndexUnique(s, c, |p|);
  }

  lemma SplitWhole(s: string, c: char)
    requires c !in s
    ensures Split(s, c) == [s]
  {
    assert s[..|s|] == s;
    FirstIndexUnique(s, c, |s|);
  }

  /** Splitting a joined text gives the pieces back. */
  lemma {:induction false} SplitJoin(pieces: seq<string>, c: char)
    requires pieces != [] && Free(pieces, c)
    ensures Split(Join(pieces, c), c) == pieces
  {
    if |pieces| == 1 {
      SplitWhole(pieces[0], c);
    } else {
      SplitJoin(pieces[1..], c);
      SplitPrepend(pieces[0], Join(pieces[1..], c), c);
      assert pieces == [pieces[0]] + pieces[1..];
    }
  }

  /** Joining the pieces of a split gives the text back, and no piece holds the separator. */
  lemma {:induction false} JoinSplit(s: string, c: char)
    ensures Join(Split(s, c), c) == s && Free(Split(s, c), c)
    decreases |s|
  {
    var i := FirstIndex(s, c);
    if i < |s| {
      JoinSplit(s[i + 1..], c);
      assert Split(s, c)[1..] == Split(s[i + 1..], c);
      assert s == s[..i] + [c] + s[i + 1..];
    } else {
      assert s[..|s|] == s;
    }
  }

  lemma {:induction false} JoinAppend(pieces: seq<string>, last: string, c: char)
    requires pieces != []
    ensures Join(pieces + [last], c) == Join(pieces, c) + [c] + last
  {
    assert (pieces + [last])[1..] == pieces[1..] + [last];
    if |pieces| > 1 {
      JoinAppend(pieces[1..], last, c);
      assert Join(pieces + [last], c) == pieces[0] + [c] + (Join(pieces[1..], c) + [c] + last);
    }
  }

  lemma JoinSuffix(pieces: seq<string>, last: string, c: char)
    requires pieces != []
    ensures Join(pieces + [last], c) == Join(pieces, c) + ([c] + last)
  {
    JoinAppend(pieces, last, c);
    assert Join(pieces, c) + [c] + last == Join(pieces, c) + ([c] + last);
  }

  function UpperChar(c: char): char {
    if 'a' <= c <= 'z' then (c as int - 32) as char else c
  }

  const LOWER := "abcdefghijklmnopqrstuvwxyz"
  const UPPER := "ABCDEFGHIJKLMNOPQRSTUVWXYZ"

  /** Small letters become capital ones, and nothing else changes. */
  lemma UpperCharMeans(c: char)
    ensures forall i :: 0 <= i < 26 && c == LOWER[i] ==> UpperChar(c) == UPPER[i]
    ensures c !in LOWER ==> UpperChar(c) == c
  {
    if 'a' <= c <= 'z' {
      assert c == LOWER[c as int - 'a' as int];
    }
  }

  function Upper(s: string): (t: string)
    ensures |t| == |s|
  {
    seq(|s|, i requires 0 <= i < |s| => UpperChar(s[i]))
  }

  predicate IsGraphic(c: char) {
    '!' <= c <= '~'
  }

  predicate AllGraphic(s: string) {
    forall i :: 0 <= i < |s| ==> IsGraphic(s[i])
  }
}
