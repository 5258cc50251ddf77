/** Subtree totals: what an accumulator per node holds while branches are handed upwards. */
module Rollup {
  import opened Base
  import opened Forest

  /** The accumulator of `x` holds its own weight and the weights of the branches finished so far. */
  ghost predicate SumAt(f: Parents, w: map<Id, nat>, done: set<Id>, acc: map<Id, nat>, x: Id)
    requires x in acc && x in w
  {
    acc[x] == w[x] + Sum(Branches(f, done, x), w)
  }

  ghost predicate SumsTo(f: Parents, w: map<Id, nat>, done: set<Id>, acc: map<Id, nat>) {
    && acc.Keys == w.Keys == f.Keys
    && forall x {:trigger SumAt(f, w, done, acc, x)} :: x in acc ==> SumAt(f, w, done, acc, x)
  }

  /** The total weight of the whole subtree of `x`. */
  ghost function Total(f: Parents, w: map<Id, nat>, x: Id): nat {
    Sum(Subtree(f, x), w)
  }

  /** `c` hands its total to its parent. */
  function HandUp(f: Parents, acc: map<Id, nat>, c: Id): map<Id, nat>
    requires c in acc && c in f && (f[c].Some? ==> f[c].value in acc)
  {
    if f[c].Some? then acc[f[c].value := acc[f[c].value] + acc[c]] else acc
  }

  lemma SumsStart(f: Parents, w: map<Id, nat>)
    requires w.Keys == f.Keys
    ensures SumsTo(f, w, {}, w)
  {
    forall x | x in w ensures SumAt(f, w, {}, w, x) {
      BranchesEmpty(f, x);
    }
  }

  /** Once all children are finished, the accumulator holds the subtree total. */
  lemma SumFinished(f: Parents, w: map<Id, nat>, done: set<Id>, acc: map<Id, nat>, c: Id)
    requires Closed(f) && Acyclic(f) && SumsTo(f, w, done, acc)
    requires c in f && Children(f, c) <= done
    ensures acc[c] == Total(f, w, c)
  {
    assert SumAt(f, w, done, acc, c);
    BranchesComplete(f, done, c);
    SumUnion(Descendants(f, c), {c}, w);
    SumSingleton(c, w);
  }

  lemma SumsStep(f: Parents, w: map<Id, nat>, done: set<Id>, acc: map<Id, nat>, c: Id)
    requires Closed(f) && Acyclic(f) && SumsTo(f, w, done, acc)
    requires c in f && c !in done && Children(f, c) <= done
    requires f[c].Some? ==> f[c].value in acc
    ensures SumsTo(f, w, done + {c}, HandUp(f, acc, c))
  {
    var after := HandUp(f, acc, c);
    SumFinished(f, w, done, acc, c);
    forall x | x in after ensures SumAt(f, w, done + {c}, after, x) {
      assert SumAt(f, w, done, acc, x);
      BranchesStep(f, done, c, x);
      if f[c] == Some(x) {
        SumUnion(Branches(f, done, x), Subtree(f, c), w);
      }
    }
  }

  lemma SumMonotone(a: set<Id>, b: set<Id>, w: map<Id, nat>)
    requires a <= b
    ensures Sum(a, w) <= Sum(b, w)
  {
    SumUnion(a, b - a, w);
    assert b == a + (b - a);
  }

  /** No accumulator ever exceeds the subtree total it grows towards. */
  lemma SumBelowTotal(f: Parents, w: map<Id, nat>, done: set<Id>, acc: map<Id, nat>, x: Id)
    requires Closed(f) && Acyclic(f) && SumsTo(f, w, done, acc) && x in f
    ensures acc[x] <= Total(f, w, x)
  {
    assert SumAt(f, w, done, acc, x);
    BranchesBelow(f, done, x);
    SumMonotone(Branches(f, done, x), Descendants(f, x), w);
    BelowSelf(f, x);
    assert Subtree(f, x) == Descendants(f, x) + {x};
    SumUnion(Descendants(f, x), {x}, w);
    SumSingleton(x, w);
  }

  /** When every id is finished, every accumulator is the subtree total. */
  lemma SumsDone(f: Parents, w: map<Id, nat>, acc: map<Id, nat>, x: Id)
    requires Closed(f) && Acyclic(f) && SumsTo(f, w, f.Keys, acc) && x in f
    ensures acc[x] == Total(f, w, x)
  {
    SumFinished(f, w, f.Keys, acc, x);
  }

  // ---- Sums over a part ----

  ghost predicate WeighsAs(w: map<Id, nat>, part: set<Id>, v: map<Id, nat>, x: Id) {
    Weight(w, x) == if x in part then Weight(v, x) else 0
  }

  /** Where only the members of `part` weigh anything, only they are summed. */
  lemma {:induction false} SumPart(s: set<Id>, w: map<Id, nat>, part: set<Id>, v: map<Id, nat>)
    requires forall x :: x in s ==> WeighsAs(w, part, v, x)
    ensures Sum(s, w) == Sum(s * part, v)
    decreases |s|
  {
    if s == {} {
      assert s * part == {};
    } else {
      var x := Least(s);
      SumRemove(s, x, w);
      SumPart(s - {x}, w, part, v);
      assert WeighsAs(w, part, v, x);
      if x in part {
        assert (s * part) - {x} == (s - {x}) * part;
        SumRemove(s * part, x, v);
      } else {
        assert s * part == (s - {x}) * part;
      }
    }
  }

  /** Where members of `part` weigh one and others nothing, the sum counts the members. */
  lemma {:induction false} SumCounts(s: set<Id>, w: map<Id, nat>, part: set<Id>)
    requires forall x :: x in s ==> Weight(w, x) == if x in part then 1 else 0
    ensures Sum(s, w) == |s * part|
    decreases |s|
  {
    if s == {} {
      assert s * part == {};
    } else {
      var x := Least(s);
      SumRemove(s, x, w);
      SumCounts(s - {x}, w, part);
      RemoveCounted(s, part, x);
    }
  }

  lemma RemoveCounted(s: set<Id>, part: set<Id>, x: Id)
    requires x in s
    ensures |s * part| == |(s - {x}) * part| + if x in part then 1 else 0
  {
    if x in part {
      assert s * part == ((s - {x}) * part) + {x};
    } else {
      assert s * part == (s - {x}) * part;
    }
  }

  lemma DisjointParts(s: set<Id>, a: set<Id>, b: set<Id>)
    requires a !! b
    ensures |s * (a + b)| == |s * a| + |s * b|
  {
    assert s * (a + b) == s * a + s * b;
    assert (s * a) !! (s * b);
  }
}
