/** Failing folds, and when their order does not matter. */
module Folds {
  import opened Base

  /** Feeds the parts to `step` from left to right; the first error is the result. */
  function Fold<S, P, E>(start: S, parts: seq<P>, step: (S, P) -> Result<S, E>): Result<S, E> {
    if parts == [] then Ok(start)
    else
      match Fold(start, parts[..|parts| - 1], step)
      case Err(error) => Err(error)
      case Ok(s) => step(s, parts[|parts| - 1])
  }

  lemma FoldAppend<S, P, E>(start: S, parts: seq<P>, p: P, step: (S, P) -> Result<S, E>)
    ensures Fold(start, parts, step).Ok? ==> Fold(start, parts + [p], step) == step(Fold(start, parts, step).value, p)
    ensures Fold(start, parts, step).Err? ==> Fold(start, parts + [p], step) == Fold(start, parts, step)
  {
    assert (parts + [p])[..|parts|] == parts;
  }

  lemma {:induction false} FoldErrSticks<S, P, E>(start: S, parts: seq<P>, n: nat, step: (S, P) -> Result<S, E>)
    requires n <= |parts|
    ensures Fold(start, parts[..n], step).Err? ==> Fold(start, parts, step) == Fold(start, parts[..n], step)
    decreases |parts|
  {
    if n == |parts| {
      assert parts[..n] == parts;
    } else {
      assert parts[..|parts| - 1][..n] == parts[..n];
      FoldErrSticks(start, parts[..|parts| - 1], n, step);
    }
  }

  /** One more part: the result so far is the step's, and an error is final. */
  lemma FoldNext<S, P, E>(start: S, parts: seq<P>, i: nat, s: S, step: (S, P) -> Result<S, E>)
    requires i < |parts| && Fold(start, parts[..i], step) == Ok(s)
    ensures Fold(start, parts[..i + 1], step) == step(s, parts[i])
    ensures step(s, parts[i]).Err? ==> Fold(start, parts, step) == step(s, parts[i])
  {
    assert parts[..i + 1] == parts[..i] + [parts[i]];
    FoldAppend(start, parts[..i], parts[i], step);
    FoldErrSticks(start, parts, i + 1, step);
  }

  /** Two accepted parts may come in either order. */
  ghost predicate Swap<S, P, E>(step: (S, P) -> Result<S, E>, s: S, p: P, q: P) {
    step(s, p).Ok? && step(step(s, p).value, q).Ok? ==>
      step(s, q).Ok? && step(step(s, q).value, p) == step(step(s, p).value, q)
  }

  ghost predicate Commute<S(!new), P(!new), E(!new)>(step: (S, P) -> Result<S, E>) {
    forall s, p, q :: Swap(step, s, p, q)
  }

  lemma {:induction false} MoveForward<S(!new), P(!new), E(!new)>(start: S, left: seq<P>, x: P, right: seq<P>, step: (S, P) -> Result<S, E>)
    requires Commute(step) && Fold(start, left + right + [x], step).Ok?
    ensures Fold(start, left + ([x] + right), step) == Fold(start, left + right + [x], step)
    decreases |right|
  {
    if right == [] {
      assert left + ([x] + right) == left + right + [x];
    } else {
      var rest, y := right[..|right| - 1], right[|right| - 1];
      assert left + right == (left + rest) + [y];
      assert left + ([x] + right) == (left + ([x] + rest)) + [y];
      FoldAppend(start, left + right, x, step);
      FoldAppend(start, left + rest, y, step);
      FoldAppend(start, left + rest, x, step);
      var u := Fold(start, left + rest, step).value;
      assert Swap(step, u, y, x);
      MoveForward(start, left, x, rest, step);
      FoldAppend(start, left + ([x] + rest), y, step);
    }
  }

  lemma InsertAnywhere<S(!new), P(!new), E(!new)>(start: S, rest: seq<P>, x: P, left: seq<P>, right: seq<P>, step: (S, P) -> Result<S, E>)
    requires Commute(step) && Fold(start, rest + [x], step).Ok? && Fold(start, left + right, step) == Fold(start, rest, step)
    ensures Fold(start, left + ([x] + right), step) == Fold(start, rest + [x], step)
  {
    FoldAppend(start, rest, x, step);
    FoldAppend(start, left + right, x, step);
    MoveForward(start, left, x, right, step);
  }

  /** An accepted sequence is accepted in every order, with the same result. */
  lemma {:induction false} FoldPermute<S(!new), P(!new), E(!new)>(start: S, a: seq<P>, b: seq<P>, step: (S, P) -> Result<S, E>)
    requires Commute(step) && multiset(a) == multiset(b) && Fold(start, a, step).Ok?
    ensures Fold(start, b, step) == Fold(start, a, step)
    decreases |a|
  {
    if a == [] {
      assert |multiset(b)| == 0;
    } else {
      var rest, x := a[..|a| - 1], a[|a| - 1];
      assert a == rest + [x];
      var left, right := TakeOut(a, b);
      FoldPermute(start, rest, left + right, step);
      InsertAnywhere(start, rest, x, left, right, step);
    }
  }

  /** A fold that cannot fail. */
  ghost function Accumulate<S, P>(start: S, parts: seq<P>, step: (S, P) -> S): S {
    if parts == [] then start else step(Accumulate(start, parts[..|parts| - 1], step), parts[|parts| - 1])
  }

  ghost predicate Exchange<S, P>(step: (S, P) -> S, s: S, p: P, q: P) {
    step(step(s, p), q) == step(step(s, q), p)
  }

  lemma AccumulateAppend<S, P>(start: S, parts: seq<P>, p: P, step: (S, P) -> S)
    ensures Accumulate(start, parts + [p], step) == step(Accumulate(start, parts, step), p)
  {
    assert (parts + [p])[..|parts|] == parts;
  }

  lemma {:induction false} AccumulateInsert<S(!new), P(!new)>(start: S, left: seq<P>, x: P, right: seq<P>, step: (S, P) -> S)
    requires forall s, p, q :: Exchange(step, s, p, q)
    ensures Accumulate(start, left + ([x] + right), step) == step(Accumulate(start, left + right, step), x)
    decreases |right|
  {
    if right == [] {
      assert left + ([x] + right) == left + [x] && left + right == left;
      AccumulateAppend(start, left, x, step);
    } else {
      var rest, y := right[..|right| - 1], right[|right| - 1];
      assert left + right == (left + rest) + [y];
      assert left + ([x] + right) == (left + ([x] + rest)) + [y];
      AccumulateAppend(start, left + rest, y, step);
      AccumulateAppend(start, left + ([x] + rest), y, step);
      AccumulateInsert(start, left, x, rest, step);
      assert Exchange(step, Accumulate(start, left + rest, step), x, y);
    }
  }

  /** Steps that may be exchanged give the same result in every order. */
  lemma {:induction false} AccumulatePermute<S(!new), P(!new)>(start: S, a: seq<P>, b: seq<P>, step: (S, P) -> S)
    requires multiset(a) == multiset(b) && forall s, p, q :: Exchange(step, s, p, q)
    ensures Accumulate(start, a, step) == Accumulate(start, b, step)
    decreases |a|
  {
    if a == [] {
      assert |multiset(b)| == 0;
    } else {
      var left, right := TakeOut(a, b);
      AccumulatePermute(start, a[..|a| - 1], left + right, step);
      AccumulateInsert(start, left, a[|a| - 1], right, step);
    }
  }

  function Mapped<A, B>(f: A -> B, s: seq<A>): (t: seq<B>)
    ensures |t| == |s| && forall i :: 0 <= i < |s| ==> t[i] == f(s[i])
  {
    seq(|s|, i requires 0 <= i < |s| => f(s[i]))
  }

  lemma MappedAppend<A, B>(f: A -> B, s: seq<A>, x: A)
    ensures Mapped(f, s + [x]) == Mapped(f, s) + [f(x)]
  {
  }

  /** If every spelled item is taken for the item itself, so is the whole list. */
  lemma {:induction false} FoldTaken<S, A, P, E>(start: S, items: seq<A>, spell: A -> P, take: (S, A) -> S, step: (S, P) -> Result<S, E>)
    requires forall i {:trigger items[i]} :: 0 <= i < |items| ==>
      step(Accumulate(start, items[..i], take), spell(items[i])) == Ok(take(Accumulate(start, items[..i], take), items[i]))
    ensures Fold(start, Mapped(spell, items), step) == Ok(Accumulate(start, items, take))
  {
    if items != [] {
      var n := |items| - 1;
      var rest := items[..n];
      forall i {:trigger rest[i]} | 0 <= i < n
        ensures step(Accumulate(start, rest[..i], take), spell(rest[i])) == Ok(take(Accumulate(start, rest[..i], take), rest[i]))
      {
        assert rest[..i] == items[..i] && rest[i] == items[i];
      }
      FoldTaken(start, rest, spell, take, step);
      assert items == rest + [items[n]];
      MappedAppend(spell, rest, items[n]);
      FoldAppend(start, Mapped(spell, rest), spell(items[n]), step);
    }
  }

  /** A respelling that no step can see changes nothing. */
  lemma {:induction false} FoldMapped<S(!new), P(!new), E(!new)>(start: S, parts: seq<P>, f: P -> P, step: (S, P) -> Result<S, E>)
    requires forall s, p {:trigger step(s, f(p))} :: step(s, f(p)) == step(s, p)
    ensures Fold(start, Mapped(f, parts), step) == Fold(start, parts, step)
    decreases |parts|
  {
    if parts != [] {
      var rest, p := parts[..|parts| - 1], parts[|parts| - 1];
      assert parts == rest + [p];
      MappedAppend(f, rest, p);
      FoldMapped(start, rest, f, step);
      FoldAppend(start, Mapped(f, rest), f(p), step);
      if Fold(start, rest, step).Ok? {
        assert step(Fold(start, rest, step).value, f(p)) == step(Fold(start, rest, step).value, p);
      }
    }
  }

  // ---- Filtering ----

  /** The views of the kept elements, in order. */
  ghost function Chosen<A, B>(s: seq<A>, keep: A -> bool, view: A -> B): (chosen: seq<B>)
    ensures |chosen| <= |s|
  {
    if s == [] then []
    else
      var earlier := Chosen(s[..|s| - 1], keep, view);
      if keep(s[|s| - 1]) then earlier + [view(s[|s| - 1])] else earlier
  }

  lemma ChosenAppend<A, B>(s: seq<A>, x: A, keep: A -> bool, view: A -> B)
    ensures Chosen(s + [x], keep, view) == if keep(x) then Chosen(s, keep, view) + [view(x)] else Chosen(s, keep, view)
  {
    assert (s + [x])[..|s|] == s;
  }

  lemma {:induction false} ChosenHold<A, B>(s: seq<A>, keep: A -> bool, view: A -> B, holds: B -> bool)
    requires forall i :: 0 <= i < |s| && keep(s[i]) ==> holds(view(s[i]))
    ensures forall k :: 0 <= k < |Chosen(s, keep, view)| ==> holds(Chosen(s, keep, view)[k])
  {
    if s != [] {
      ChosenHold(s[..|s| - 1], keep, view, holds);
    }
  }

  lemma {:induction false} ChosenMember<A, B>(s: seq<A>, keep: A -> bool, view: A -> B, i: nat)
    requires i < |s| && keep(s[i])
    ensures view(s[i]) in Chosen(s, keep, view)
  {
    if i < |s| - 1 {
      ChosenMember(s[..|s| - 1], keep, view, i);
    }
  }

  /** Which element of `s` stands at position `k` of the choice. */
  lemma {:induction false} ChosenOrigin<A, B>(s: seq<A>, keep: A -> bool, view: A -> B, k: nat) returns (i: nat)
    requires k < |Chosen(s, keep, view)|
    ensures i < |s| && keep(s[i]) && view(s[i]) == Chosen(s, keep, view)[k]
  {
    if keep(s[|s| - 1]) && k == |Chosen(s, keep, view)| - 1 {
      i := |s| - 1;
    } else {
      i := ChosenOrigin(s[..|s| - 1], keep, view, k);
    }
  }

  /** A relation between all earlier and later elements survives the choice. */
  lemma {:induction false} ChosenRelated<A, B>(s: seq<A>, keep: A -> bool, view: A -> B, related: (B, B) -> bool)
    requires forall i, j :: 0 <= i < j < |s| ==> related(view(s[i]), view(s[j]))
    ensures forall k, l :: 0 <= k < l < |Chosen(s, keep, view)| ==> related(Chosen(s, keep, view)[k], Chosen(s, keep, view)[l])
  {
    if s != [] {
      var n := |s| - 1;
      var earlier := Chosen(s[..n], keep, view);
      ChosenRelated(s[..n], keep, view, related);
      forall k | 0 <= k < |earlier| ensures related(earlier[k], view(s[n])) {
        var i := ChosenOrigin(s[..n], keep, view, k);
      }
    }
  }

  function AddIf<T>(bag: multiset<T>, present: bool, x: T): multiset<T> {
    if present then bag + multiset{x} else bag
  }

  ghost function BagStep<A, B>(keep: A -> bool, view: A -> B): (multiset<B>, A) -> multiset<B> {
    (bag, x) => AddIf(bag, keep(x), view(x))
  }

  lemma BagExchange<T>(bag: multiset<T>, p: bool, x: T, q: bool, y: T)
    ensures AddIf(AddIf(bag, p, x), q, y) == AddIf(AddIf(bag, q, y), p, x)
  {
  }

  lemma {:induction false} ChosenBag<A, B>(s: seq<A>, keep: A -> bool, view: A -> B)
    ensures multiset(Chosen(s, keep, view)) == Accumulate(multiset{}, s, BagStep(keep, view))
  {
    if s != [] {
      ChosenBag(s[..|s| - 1], keep, view);
    }
  }

  /** Choosing from another order chooses the same bag. */
  lemma ChosenPermutes<A(!new), B(!new)>(a: seq<A>, b: seq<A>, keep: A -> bool, view: A -> B)
    requires multiset(a) == multiset(b)
    ensures multiset(Chosen(a, keep, view)) == multiset(Chosen(b, keep, view))
  {
    forall bag, p, q ensures Exchange(BagStep(keep, view), bag, p, q) {
      BagExchange(bag, keep(p), view(p), keep(q), view(q));
    }
    ChosenBag(a, keep, view);
    ChosenBag(b, keep, view);
    AccumulatePermute(multiset{}, a, b, BagStep(keep, view));
  }

  // ---- Sums and counts over what was chosen ----

  lemma {:induction false} SeqSumSame<A>(s: seq<A>, v: A -> int, w: A -> int)
    requires forall i :: 0 <= i < |s| ==> v(s[i]) == w(s[i])
    ensures SeqSum(s, v) == SeqSum(s, w)
  {
    if s != [] {
      SeqSumSame(s[..|s| - 1], v, w);
    }
  }

  ghost function IfKept<A, B>(keep: A -> bool, view: A -> B, w: B -> int): A -> int {
    x => if keep(x) then w(view(x)) else 0
  }

  lemma {:induction false} ChosenSum<A, B>(s: seq<A>, keep: A -> bool, view: A -> B, w: B -> int)
    ensures SeqSum(Chosen(s, keep, view), w) == SeqSum(s, IfKept(keep, view, w))
  {
    if s != [] {
      ChosenSum(s[..|s| - 1], keep, view, w);
      var earlier := Chosen(s[..|s| - 1], keep, view);
      assert keep(s[|s| - 1]) ==> (earlier + [view(s[|s| - 1])])[..|earlier|] == earlier;
    }
  }

  ghost function PositionsOf<A>(s: seq<A>, p: A -> bool): set<int> {
    set i | 0 <= i < |s| && p(s[i])
  }

  /** The number of positions whose element satisfies `p`. */
  ghost function CountOf<A>(s: seq<A>, p: A -> bool): nat {
    |PositionsOf(s, p)|
  }

  function Indicator<A>(p: A -> bool): A -> int {
    x => if p(x) then 1 else 0
  }

  lemma PositionsStep<A>(s: seq<A>, p: A -> bool)
    requires s != []
    ensures var n := |s| - 1; CountOf(s, p) == CountOf(s[..n], p) + if p(s[n]) then 1 else 0
  {
    var n := |s| - 1;
    assert PositionsOf(s, p) == PositionsOf(s[..n], p) + if p(s[n]) then {n} else {};
  }

  lemma {:induction false} SumCountsPositions<A>(s: seq<A>, p: A -> bool)
    ensures SeqSum(s, Indicator(p)) == CountOf(s, p)
  {
    if s == [] {
      assert PositionsOf(s, p) == {};
    } else {
      SumCountsPositions(s[..|s| - 1], p);
      PositionsStep(s, p);
    }
  }
}
