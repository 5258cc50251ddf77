/** Indexing a list by id: the index, repeated ids, and the complaint about the earliest bad entry. */
module Indexing {
  import opened Base
  import opened Folds

  function Index<T>(items: seq<T>, id: T -> Id): map<Id, T> {
    if items == [] then map[]
    else
      var n := |items| - 1;
      Index(items[..n], id)[id(items[n]) := items[n]]
  }

  ghost predicate Has<T>(items: seq<T>, id: T -> Id, x: Id) {
    exists i :: 0 <= i < |items| && id(items[i]) == x
  }

  lemma IndexAppend<T>(items: seq<T>, item: T, id: T -> Id)
    ensures Index(items + [item], id) == Index(items, id)[id(item) := item]
  {
    assert (items + [item])[..|items|] == items;
  }

  lemma {:induction false} IndexDomain<T>(items: seq<T>, id: T -> Id, x: Id)
    ensures x in Index(items, id) <==> Has(items, id, x)
  {
    if items != [] {
      var n := |items| - 1;
      IndexDomain(items[..n], id, x);
      if Has(items[..n], id, x) {
        var i :| 0 <= i < n && id(items[..n][i]) == x;
        assert id(items[i]) == x;
      }
      forall i | 0 <= i < |items| && id(items[i]) == x ensures x in Index(items, id) {
        if i < n {
          assert id(items[..n][i]) == x;
        }
      }
    }
  }

  // ---- Repeated ids ----

  /** No two entries share an id. */
  ghost predicate Distinguished<T>(items: seq<T>, id: T -> Id) {
    forall i, j :: 0 <= i < j < |items| ==> id(items[i]) != id(items[j])
  }

  ghost predicate Twin<T>(items: seq<T>, id: T -> Id, x: Id) {
    exists i, j :: 0 <= i < j < |items| && id(items[i]) == x && id(items[j]) == x
  }

  ghost predicate LeastTwin<T>(items: seq<T>, id: T -> Id, x: Id) {
    Twin(items, id, x) && forall y :: Twin(items, id, y) ==> x <= y
  }

  lemma {:induction false} IndexAt<T>(items: seq<T>, id: T -> Id, i: nat)
    requires i < |items| && Distinguished(items, id)
    ensures id(items[i]) in Index(items, id) && Index(items, id)[id(items[i])] == items[i]
  {
    if i < |items| - 1 {
      IndexAt(items[..|items| - 1], id, i);
    }
  }

  /** Every entry of the index is an entry of the list, under its own id. */
  lemma {:induction false} IndexOrigin<T>(items: seq<T>, id: T -> Id, x: Id) returns (i: nat)
    requires x in Index(items, id)
    ensures i < |items| && Index(items, id)[x] == items[i] && id(items[i]) == x
  {
    var n := |items| - 1;
    if id(items[n]) == x {
      i := n;
    } else {
      i := IndexOrigin(items[..n], id, x);
    }
  }

  lemma {:induction false} IndexSize<T>(items: seq<T>, id: T -> Id)
    ensures |Index(items, id)| <= |items|
    ensures |Index(items, id)| == |items| <==> Distinguished(items, id)
  {
    if items != [] {
      var n := |items| - 1;
      var before := Index(items[..n], id);
      IndexSize(items[..n], id);
      IndexDomain(items[..n], id, id(items[n]));
      assert Index(items, id).Keys == before.Keys + {id(items[n])};
      assert |Index(items, id)| == |Index(items, id).Keys| && |before| == |before.Keys|;
      DistinguishedStep(items, id);
    }
  }

  lemma DistinguishedStep<T>(items: seq<T>, id: T -> Id)
    requires items != []
    ensures var n := |items| - 1;
      Distinguished(items, id) <==> Distinguished(items[..n], id) && !Has(items[..n], id, id(items[n]))
  {
    var n := |items| - 1;
    if Has(items[..n], id, id(items[n])) {
      var i :| 0 <= i < n && id(items[..n][i]) == id(items[n]);
      assert id(items[i]) == id(items[n]);
    }
    if Distinguished(items[..n], id) && !Has(items[..n], id, id(items[n])) {
      forall i, j | 0 <= i < j < |items| ensures id(items[i]) != id(items[j]) {
        assert items[..n][i] == items[i];
        if j < n {
          assert items[..n][j] == items[j];
        }
      }
    }
  }

  lemma DistinguishedBefore<T>(items: seq<T>, id: T -> Id, i: nat)
    requires i < |items| && Distinguished(items, id)
    ensures !Has(items[..i], id, id(items[i])) && id(items[i]) !in Index(items[..i], id)
  {
    IndexDomain(items[..i], id, id(items[i]));
    assert forall j :: 0 <= j < i ==> items[..i][j] == items[j];
  }

  // ---- Reordering ----

  function Everything<T>(): T -> bool {
    x => true
  }

  ghost function Ids<T>(items: seq<T>, id: T -> Id): seq<Id> {
    Chosen(items, Everything<T>(), id)
  }

  lemma {:induction false} IdAt<T>(items: seq<T>, id: T -> Id)
    ensures |Ids(items, id)| == |items|
    ensures forall i :: 0 <= i < |items| ==> Ids(items, id)[i] == id(items[i])
  {
    if items != [] {
      IdAt(items[..|items| - 1], id);
    }
  }

  lemma TwinIsTwice<T>(items: seq<T>, id: T -> Id, x: Id)
    ensures Twin(items, id, x) <==> multiset(Ids(items, id))[x] >= 2
  {
    var ids := Ids(items, id);
    IdAt(items, id);
    TwiceIff<Id>(ids, x);
    if Twin(items, id, x) {
      var i, j :| 0 <= i < j < |items| && id(items[i]) == x && id(items[j]) == x;
      assert ids[i] == x && ids[j] == x;
    }
    if multiset(ids)[x] >= 2 {
      var i, j :| 0 <= i < j < |ids| && ids[i] == x && ids[j] == x;
      assert id(items[i]) == x && id(items[j]) == x;
    }
  }

  /** A repeated id is repeated in every order. */
  lemma TwinsPermute<T(!new)>(a: seq<T>, b: seq<T>, id: T -> Id, x: Id)
    requires multiset(a) == multiset(b)
    ensures Twin(a, id, x) <==> Twin(b, id, x)
  {
    ChosenPermutes<T, Id>(a, b, Everything<T>(), id);
    TwinIsTwice(a, id, x);
    TwinIsTwice(b, id, x);
  }

  lemma NoTwins<T>(items: seq<T>, id: T -> Id)
    ensures Distinguished(items, id) <==> forall x :: !Twin(items, id, x)
  {
    if !Distinguished(items, id) {
      var i, j :| 0 <= i < j < |items| && id(items[i]) == id(items[j]);
      assert Twin(items, id, id(items[i]));
    }
  }

  lemma DistinguishedPermutes<T(!new)>(a: seq<T>, b: seq<T>, id: T -> Id)
    requires multiset(a) == multiset(b)
    ensures Distinguished(a, id) <==> Distinguished(b, id)
  {
    forall x ensures Twin(a, id, x) <==> Twin(b, id, x) {
      TwinsPermute(a, b, id, x);
    }
    NoTwins(a, id);
    NoTwins(b, id);
  }

  lemma IndexWithin<T(!new)>(a: seq<T>, b: seq<T>, id: T -> Id, x: Id)
    requires multiset(a) == multiset(b) && Distinguished(b, id) && x in Index(a, id)
    ensures x in Index(b, id) && Index(b, id)[x] == Index(a, id)[x]
  {
    var i := IndexOrigin(a, id, x);
    assert a[i] in multiset(b);
    var j :| 0 <= j < |b| && b[j] == a[i];
    IndexAt(b, id, j);
  }

  /** The index of distinct entries does not depend on their order. */
  lemma IndexPermutes<T(!new)>(a: seq<T>, b: seq<T>, id: T -> Id)
    requires multiset(a) == multiset(b) && Distinguished(a, id)
    ensures Distinguished(b, id) && Index(a, id) == Index(b, id)
  {
    DistinguishedPermutes(a, b, id);
    forall x | x in Index(a, id) ensures x in Index(b, id) && Index(b, id)[x] == Index(a, id)[x] {
      IndexWithin(a, b, id, x);
    }
    forall x | x in Index(b, id) ensures x in Index(a, id) {
      IndexWithin(b, a, id, x);
    }
  }

  // ---- The earliest complaint ----

  /** The complaint about the earliest entry that has one; `fault` sees an entry and those before it. */
  ghost function FirstFault<T, E>(items: seq<T>, fault: (seq<T>, T) -> Option<E>): Option<E> {
    if items == [] then None
    else
      var n := |items| - 1;
      var earlier := FirstFault(items[..n], fault);
      if earlier.Some? then earlier else fault(items[..n], items[n])
  }

  lemma FaultNext<T, E>(items: seq<T>, n: nat, fault: (seq<T>, T) -> Option<E>)
    requires n < |items|
    ensures FirstFault(items[..n + 1], fault) ==
      if FirstFault(items[..n], fault).Some? then FirstFault(items[..n], fault) else fault(items[..n], items[n])
  {
    assert items[..n + 1][..n] == items[..n];
  }

  lemma {:induction false} FaultSticks<T, E>(items: seq<T>, n: nat, fault: (seq<T>, T) -> Option<E>)
    requires n <= |items|
    ensures FirstFault(items[..n], fault).Some? ==> FirstFault(items, fault) == FirstFault(items[..n], fault)
    decreases |items|
  {
    if n == |items| {
      assert items[..n] == items;
    } else {
      assert items[..|items| - 1][..n] == items[..n];
      FaultSticks(items[..|items| - 1], n, fault);
    }
  }

  /** One more entry of a faultless list: its index, whether its id is new, and its complaint. */
  lemma IndexNext<T, E>(items: seq<T>, i: nat, id: T -> Id, fault: (seq<T>, T) -> Option<E>)
    requires i < |items| && FirstFault(items[..i], fault).None?
    ensures Index(items[..i + 1], id) == Index(items[..i], id)[id(items[i]) := items[i]]
    ensures id(items[i]) in Index(items[..i], id) <==> Has(items[..i], id, id(items[i]))
    ensures FirstFault(items[..i + 1], fault) == fault(items[..i], items[i])
    ensures fault(items[..i], items[i]).Some? ==> FirstFault(items, fault) == fault(items[..i], items[i])
  {
    assert items[..i + 1] == items[..i] + [items[i]];
    IndexAppend(items[..i], items[i], id);
    IndexDomain(items[..i], id, id(items[i]));
    FaultNext(items, i, fault);
    FaultSticks(items, i + 1, fault);
  }

  lemma {:induction false} FaultlessAt<T, E>(items: seq<T>, i: nat, fault: (seq<T>, T) -> Option<E>)
    requires i < |items| && FirstFault(items, fault).None?
    ensures fault(items[..i], items[i]).None?
    decreases |items|
  {
    if i < |items| - 1 {
      assert items[..|items| - 1][..i] == items[..i];
      FaultlessAt(items[..|items| - 1], i, fault);
    }
  }

  lemma {:induction false} FaultlessWhen<T, E>(items: seq<T>, fault: (seq<T>, T) -> Option<E>)
    requires forall i {:trigger items[i]} :: 0 <= i < |items| ==> fault(items[..i], items[i]).None?
    ensures FirstFault(items, fault).None?
  {
    if items != [] {
      var n := |items| - 1;
      forall i | 0 <= i < n ensures fault(items[..n][..i], items[..n][i]).None? {
        assert items[..n][..i] == items[..i];
      }
      FaultlessWhen(items[..n], fault);
    }
  }

  lemma {:induction false} FaultOrigin<T, E>(items: seq<T>, fault: (seq<T>, T) -> Option<E>) returns (i: nat)
    requires FirstFault(items, fault).Some?
    ensures i < |items| && fault(items[..i], items[i]) == FirstFault(items, fault)
    ensures FirstFault(items[..i], fault).None?
  {
    var n := |items| - 1;
    if FirstFault(items[..n], fault).Some? {
      i := FaultOrigin(items[..n], fault);
      assert items[..n][..i] == items[..i];
    } else {
      i := n;
    }
  }

  /** Where repeats are faults, a faultless list has none. */
  lemma FaultlessDistinguished<T(!new), E>(items: seq<T>, id: T -> Id, fault: (seq<T>, T) -> Option<E>)
    requires FirstFault(items, fault).None?
    requires forall earlier, item :: Has(earlier, id, id(item)) ==> fault(earlier, item).Some?
    ensures Distinguished(items, id)
  {
    forall i, j | 0 <= i < j < |items| ensures id(items[i]) != id(items[j]) {
      FaultlessAt(items, j, fault);
      assert items[..j][i] == items[i];
      assert !Has(items[..j], id, id(items[j]));
    }
  }

  // ---- The complaint about the least bad id ----

  /** The ids that have a complaint. */
  ghost function Faulty<E>(ids: set<Id>, fault: Id -> Option<E>): set<Id> {
    set x | x in ids && fault(x).Some?
  }

  ghost function LeastFault<E>(ids: set<Id>, fault: Id -> Option<E>): Option<E> {
    if Faulty(ids, fault) == {} then None else fault(Least(Faulty(ids, fault)))
  }

  /** Visiting ids in ascending order, the first complaint is the one about the least bad id. */
  lemma FirstIsLeast<E>(ids: set<Id>, seen: set<Id>, todo: set<Id>, fault: Id -> Option<E>)
    requires todo != {} && todo + seen == ids && forall y, z :: y in seen && z in todo ==> y < z
    requires forall y :: y in seen ==> fault(y).None?
    ensures fault(Least(todo)).Some? ==> LeastFault(ids, fault) == fault(Least(todo))
  {
    if fault(Least(todo)).Some? {
      assert Least(todo) in Faulty(ids, fault);
    }
  }

  lemma Faultless<E>(ids: set<Id>, fault: Id -> Option<E>)
    ensures LeastFault(ids, fault).None? <==> forall x :: x in ids ==> fault(x).None?
  {
    assert forall x :: x in ids && fault(x).Some? ==> x in Faulty(ids, fault);
  }
}
