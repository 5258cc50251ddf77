/** Shared vocabulary: optional values, results, identifiers and finite sums.

    Item and occurrence identifiers are UUIDs, which the planning core only compares;
    they are modelled as the 128-bit number they spell, so `NIL` is the nil UUID and
    `<` is the order that every `BTreeMap` and `BTreeSet` of the core iterates in. */
module Base {

  datatype Option<+T> = None | Some(value: T)

  datatype Result<+T, +E> = Ok(value: T) | Err(error: E)

  type Id = nat

  const NIL: Id := 0

  const I64_MAX := 0x7fff_ffff_ffff_ffff
  const U64_MAX := 0xffff_ffff_ffff_ffff
  const U32_MAX := 0xffff_ffff

  ghost predicate Distinct<T>(s: seq<T>) {
    forall i, j :: 0 <= i < j < |s| ==> s[i] != s[j]
  }

  function Elements<T>(s: seq<T>): set<T> {
    set x | x in s
  }

  lemma ElementsAppend<T>(s: seq<T>, x: T)
    ensures Elements(s + [x]) == Elements(s) + {x}
  {
    assert forall y :: y in s + [x] <==> y in s || y == x;
  }

  lemma PopLast<T>(s: seq<T>)
    requires s != [] && Distinct(s)
    ensures Distinct(s[..|s| - 1])
    ensures Elements(s[..|s| - 1]) == Elements(s) - {s[|s| - 1]}
  {
    var rest := s[..|s| - 1];
    assert s == rest + [s[|s| - 1]];
    ElementsAppend(rest, s[|s| - 1]);
  }

  lemma PushNew<T>(s: seq<T>, x: T)
    requires Distinct(s) && x !in s
    ensures Distinct(s + [x])
    ensures Elements(s + [x]) == Elements(s) + {x}
  {
    ElementsAppend(s, x);
  }

  /** A sequence without repetitions is no longer than the set it draws from. */
  lemma {:induction false} DistinctLength<T>(s: seq<T>, pool: set<T>)
    requires Distinct(s)
    requires Elements(s) <= pool
    ensures |s| <= |pool|
  {
    if s != [] {
      var last := s[|s| - 1];
      var rest := s[..|s| - 1];
      assert last in Elements(s);
      assert Elements(rest) <= pool - {last} by {
        forall y | y in Elements(rest) ensures y in pool - {last} {
          var i :| 0 <= i < |rest| && rest[i] == y;
          assert s[i] == y && y in Elements(s);
        }
      }
      DistinctLength(rest, pool - {last});
    }
  }

  lemma {:induction false} DistinctCardinality<T>(s: seq<T>)
    requires Distinct(s)
    ensures |Elements(s)| == |s|
  {
    if s != [] {
      var last := s[|s| - 1];
      var rest := s[..|s| - 1];
      assert s == rest + [last];
      ElementsAppend(rest, last);
      assert last !in Elements(rest);
      DistinctCardinality(rest);
    }
  }

  lemma DifferenceEmpty<T>(a: set<T>, b: set<T>)
    ensures a - b == {} <==> a <= b
  {
    if a - b == {} {
      assert forall x :: x in a ==> x in b || x in a - b;
    }
  }

  lemma {:induction false} SubsetCardinality<T>(a: set<T>, b: set<T>)
    requires a <= b
    ensures |a| <= |b|
  {
    assert b == a + (b - a);
  }

  lemma UnionCardinality<T>(a: set<T>, b: set<T>)
    requires a !! b
    ensures |a + b| == |a| + |b|
  {
  }

  lemma ProperSubsetSmaller<T>(a: set<T>, b: set<T>)
    requires a < b
    ensures |a| < |b|
  {
    var x :| x in b && x !in a;
    SubsetCardinality(a, b - {x});
  }

  predicate IsLeast(s: set<Id>, m: Id) {
    m in s && forall y :: y in s ==> m <= y
  }

  lemma {:induction false} LeastExists(s: set<Id>)
    requires s != {}
    ensures exists m :: IsLeast(s, m)
  {
    var x :| x in s;
    if s == {x} {
      assert IsLeast(s, x);
    } else {
      LeastExists(s - {x});
      var m :| IsLeast(s - {x}, m);
      var least := if x <= m then x else m;
      forall y | y in s ensures least <= y {
        assert y == x || y in s - {x};
      }
      assert IsLeast(s, least);
    }
  }

  /** `BTreeSet::first` and `BTreeMap::first_key_value`. */
  function Least(s: set<Id>): (m: Id)
    requires s != {}
    ensures IsLeast(s, m)
  {
    LeastExists(s);
    var m :| m in s && IsLeast(s, m);
    m
  }

  predicate IsGreatest(s: set<Id>, m: Id) {
    m in s && forall y :: y in s ==> y <= m
  }

  lemma {:induction false} GreatestExists(s: set<Id>)
    requires s != {}
    ensures exists m :: IsGreatest(s, m)
  {
    var x :| x in s;
    if s == {x} {
      assert IsGreatest(s, x);
    } else {
      GreatestExists(s - {x});
      var m :| IsGreatest(s - {x}, m);
      var greatest := if x >= m then x else m;
      forall y | y in s ensures y <= greatest {
        assert y == x || y in s - {x};
      }
      assert IsGreatest(s, greatest);
    }
  }

  function Greatest(s: set<Id>): (m: Id)
    requires s != {}
    ensures IsGreatest(s, m)
  {
    GreatestExists(s);
    var m :| m in s && IsGreatest(s, m);
    m
  }

  /** One step of an ascending iteration: the least element moves from `todo` to `seen`. */
  lemma AscendingStep(all: set<Id>, seen: set<Id>, todo: set<Id>)
    requires todo != {} && todo !! seen && todo + seen == all
    requires forall y, z :: y in seen && z in todo ==> y < z
    ensures var id := Least(todo);
      && (todo - {id}) !! (seen + {id})
      && (todo - {id}) + (seen + {id}) == all
      && forall y, z :: y in seen + {id} && z in todo - {id} ==> y < z
  {
  }

  /** Sum of the weights of a set of identifiers; identifiers without a weight count zero. */
  ghost function Sum(s: set<Id>, w: map<Id, nat>): (total: nat) {
    if s == {} then 0
    else
      var x := Least(s);
      Weight(w, x) + Sum(s - {x}, w)
  }

  function Weight(w: map<Id, nat>, x: Id): nat {
    if x in w then w[x] else 0
  }

  lemma LeastStays(s: set<Id>, x: Id)
    requires x in s && x != Least(s)
    ensures Least(s) in s - {x} && Least(s - {x}) == Least(s)
  {
  }

  /** Any element may be split off, not only the least. */
  lemma {:induction false} SumRemove(s: set<Id>, x: Id, w: map<Id, nat>)
    requires x in s
    ensures Sum(s, w) == Sum(s - {x}, w) + Weight(w, x)
    decreases |s|
  {
    var y := Least(s);
    if x != y {
      LeastStays(s, x);
      SumRemove(s - {y}, x, w);
      assert s - {y} - {x} == s - {x} - {y};
    }
  }

  lemma {:induction false} SumUnion(a: set<Id>, b: set<Id>, w: map<Id, nat>)
    requires a !! b
    ensures Sum(a + b, w) == Sum(a, w) + Sum(b, w)
    decreases |a|
  {
    if a == {} {
      assert a + b == b;
    } else {
      var x := Least(a);
      SumRemove(a + b, x, w);
      assert (a + b) - {x} == (a - {x}) + b;
      SumUnion(a - {x}, b, w);
    }
  }

  lemma SumSingleton(x: Id, w: map<Id, nat>)
    ensures Sum({x}, w) == Weight(w, x)
  {
    assert {x} - {x} == {};
    SumRemove({x}, x, w);
  }

  ghost function SeqSum<T>(s: seq<T>, w: T -> int): int {
    if s == [] then 0 else SeqSum(s[..|s| - 1], w) + w(s[|s| - 1])
  }

  lemma Cancel<T>(m: multiset<T>, k: multiset<T>, x: T)
    requires m + multiset{x} == k + multiset{x}
    ensures m == k
  {
    assert m == (m + multiset{x}) - multiset{x};
    assert k == (k + multiset{x}) - multiset{x};
  }

  lemma MultisetMiddle<T>(left: seq<T>, x: T, right: seq<T>)
    ensures multiset(left + ([x] + right)) == multiset(left + right) + multiset{x}
  {
  }

  /** The last element of `a` stands somewhere in any reordering `b`. */
  lemma TakeOut<T>(a: seq<T>, b: seq<T>) returns (left: seq<T>, right: seq<T>)
    requires a != [] && multiset(a) == multiset(b)
    ensures b == left + ([a[|a| - 1]] + right) && multiset(a[..|a| - 1]) == multiset(left + right)
  {
    var rest, x := a[..|a| - 1], a[|a| - 1];
    assert a == rest + ([x] + []);
    assert x in multiset(b);
    var i :| 0 <= i < |b| && b[i] == x;
    left, right := b[..i], b[i + 1..];
    assert b == left + ([x] + right);
    MultisetMiddle(left, x, right);
    MultisetMiddle(rest, x, []);
    assert rest + [] == rest;
    Cancel(multiset(rest), multiset(left + right), x);
  }

  lemma {:induction false} TwiceIff<T>(s: seq<T>, x: T)
    ensures multiset(s)[x] >= 2 <==> exists i, j :: 0 <= i < j < |s| && s[i] == x && s[j] == x
  {
    if s != [] {
      var n := |s| - 1;
      assert s == s[..n] + [s[n]];
      TwiceIff(s[..n], x);
      if multiset(s[..n])[x] >= 2 {
        var i, j :| 0 <= i < j < n && s[..n][i] == x && s[..n][j] == x;
        assert s[i] == x && s[j] == x;
      }
      if s[n] == x && x in s[..n] {
        var i :| 0 <= i < n && s[..n][i] == x;
        assert s[i] == x && s[n] == x;
      }
      assert x in s[..n] <==> multiset(s[..n])[x] >= 1;
      forall i, j | 0 <= i < j < |s| && s[i] == x && s[j] == x ensures multiset(s)[x] >= 2 {
        assert s[..n][i] == x;
        if j < n {
          assert s[..n][j] == x;
        }
      }
    }
  }
}
