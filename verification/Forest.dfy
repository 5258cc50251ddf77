/** Parent maps, ancestor chains, subtrees, and the child-before-parent reduction
    that the completion engine, both roll-ups and the occurrence member check share. */
module Forest {
  import opened Base

  /** Each known item with its optional parent link. A parent may be missing from the map. */
  type Parents = map<Id, Option<Id>>

  /** `x` names a parent that is not in the map. */
  ghost predicate Orphan(f: Parents, x: Id) {
    x in f && f[x].Some? && f[x].value !in f
  }

  ghost predicate Closed(f: Parents) {
    forall x :: !Orphan(f, x)
  }

  /** The `k`-th ancestor of `x`: `x` itself for `k == 0`, `None` once the chain has ended. */
  ghost function Up(f: Parents, x: Id, k: nat): Option<Id>
    decreases k
  {
    if k == 0 then Some(x)
    else if x in f && f[x].Some? then Up(f, f[x].value, k - 1)
    else None
  }

  ghost predicate OnCycle(f: Parents, x: Id) {
    exists k: nat :: k >= 1 && Up(f, x, k) == Some(x)
  }

  ghost predicate Acyclic(f: Parents) {
    forall x {:trigger OnCycle(f, x)} :: x in f ==> !OnCycle(f, x)
  }

  /** `d` is `x` or one of its descendants, at any depth. */
  ghost predicate Below(f: Parents, d: Id, x: Id) {
    exists k: nat :: Up(f, d, k) == Some(x)
  }

  ghost function Subtree(f: Parents, x: Id): set<Id> {
    set d | d in f && Below(f, d, x)
  }

  /** All descendants of `x`, without `x` itself. */
  ghost function Descendants(f: Parents, x: Id): set<Id> {
    Subtree(f, x) - {x}
  }

  function Children(f: Parents, x: Id): set<Id> {
    set c | c in f && f[c] == Some(x)
  }

  lemma {:induction false} UpAdd(f: Parents, x: Id, j: nat, k: nat)
    requires Up(f, x, j).Some?
    ensures Up(f, x, j + k) == Up(f, Up(f, x, j).value, k)
    decreases j
  {
    if j > 0 {
      UpAdd(f, f[x].value, j - 1, k);
    }
  }

  lemma {:induction false} UpPrefix(f: Parents, x: Id, j: nat, k: nat)
    requires j <= k && Up(f, x, k).Some?
    ensures Up(f, x, j).Some?
    decreases j
  {
    if j > 0 {
      UpPrefix(f, f[x].value, j - 1, k - 1);
    }
  }

  lemma {:induction false} UpStays(f: Parents, x: Id, k: nat)
    requires Closed(f) && x in f && Up(f, x, k).Some?
    ensures Up(f, x, k).value in f
    decreases k
  {
    if k > 0 {
      assert !Orphan(f, x);
      UpStays(f, f[x].value, k - 1);
    }
  }

  lemma BelowSelf(f: Parents, x: Id)
    ensures Below(f, x, x)
  {
    assert Up(f, x, 0) == Some(x);
  }

  /** One step down: `d` is below `x` exactly when it is `x` or its parent is below `x`. */
  lemma BelowStep(f: Parents, d: Id, x: Id)
    ensures Below(f, d, x) <==> d == x || (d in f && f[d].Some? && Below(f, f[d].value, x))
  {
    if d == x {
      BelowSelf(f, x);
    }
    if Below(f, d, x) {
      var k: nat :| Up(f, d, k) == Some(x);
      if k > 0 {
        assert Up(f, f[d].value, k - 1) == Some(x);
      }
    }
    if d in f && f[d].Some? && Below(f, f[d].value, x) {
      var k: nat :| Up(f, f[d].value, k) == Some(x);
      assert Up(f, d, k + 1) == Some(x);
    }
  }

  lemma BelowTrans(f: Parents, d: Id, c: Id, x: Id)
    requires Below(f, d, c) && Below(f, c, x)
    ensures Below(f, d, x)
  {
    var j: nat :| Up(f, d, j) == Some(c);
    var k: nat :| Up(f, c, k) == Some(x);
    UpAdd(f, d, j, k);
  }

  /** The ancestor chain of an id on a cycle never ends. */
  lemma {:induction false} CycleNeverEnds(f: Parents, x: Id, k: nat, n: nat)
    requires k >= 1 && Up(f, x, k) == Some(x)
    ensures Up(f, x, n).Some?
    decreases n
  {
    if n < k {
      UpPrefix(f, x, n, k);
    } else {
      CycleNeverEnds(f, x, k, n - k);
      UpAdd(f, x, k, n - k);
    }
  }

  // ---- Subtrees decompose into disjoint branches ----

  /** A common descendant of two siblings puts their parent on a cycle. */
  lemma SharedDescendant(f: Parents, x: Id, c1: Id, c2: Id, d: Id, k1: nat, k2: nat)
    requires c1 in Children(f, x) && c2 in Children(f, x)
    requires k1 < k2 && Up(f, d, k1) == Some(c1) && Up(f, d, k2) == Some(c2)
    ensures OnCycle(f, x)
  {
    UpAdd(f, d, k1, k2 - k1);
    assert Up(f, x, k2 - k1 - 1) == Some(c2);
    UpAdd(f, x, k2 - k1 - 1, 1);
    assert Up(f, c2, 1) == Up(f, x, 0);
  }

  lemma DistinctBranchesDisjoint(f: Parents, x: Id, c1: Id, c2: Id)
    requires Acyclic(f) && x in f
    requires c1 in Children(f, x) && c2 in Children(f, x) && c1 != c2
    ensures Subtree(f, c1) !! Subtree(f, c2)
  {
    forall d | d in Subtree(f, c1) && d in Subtree(f, c2) ensures false {
      var k1: nat :| Up(f, d, k1) == Some(c1);
      var k2: nat :| Up(f, d, k2) == Some(c2);
      if k1 < k2 {
        SharedDescendant(f, x, c1, c2, d, k1, k2);
      } else {
        SharedDescendant(f, x, c2, c1, d, k2, k1);
      }
    }
  }

  lemma ParentBelowChild(f: Parents, x: Id, c: Id)
    requires c in Children(f, x) && Below(f, x, c)
    ensures OnCycle(f, x)
  {
    var k: nat :| Up(f, x, k) == Some(c);
    UpAdd(f, x, k, 1);
    assert Up(f, c, 1) == Up(f, x, 0);
  }

  /** The descendants of `x` inside the branches of those children already in `done`. */
  ghost function Branches(f: Parents, done: set<Id>, x: Id): set<Id> {
    set d, c | c in done && c in f && f[c] == Some(x) && d in Subtree(f, c) :: d
  }

  /** Finishing `c` hands its whole subtree to its parent's branches, and nothing else. */
  lemma BranchesStep(f: Parents, done: set<Id>, c: Id, x: Id)
    requires Closed(f) && Acyclic(f) && c in f && c !in done
    ensures f[c] == Some(x) ==>
      && Branches(f, done, x) !! Subtree(f, c)
      && Branches(f, done + {c}, x) == Branches(f, done, x) + Subtree(f, c)
    ensures f[c] != Some(x) ==> Branches(f, done + {c}, x) == Branches(f, done, x)
  {
    if f[c] == Some(x) {
      forall d | d in Branches(f, done, x) ensures d !in Subtree(f, c) {
        var b :| b in done && b in f && f[b] == Some(x) && d in Subtree(f, b);
        assert !Orphan(f, c);
        DistinctBranchesDisjoint(f, x, b, c);
      }
    }
  }

  lemma BranchesEmpty(f: Parents, x: Id)
    ensures Branches(f, {}, x) == {}
  {
  }

  lemma BranchesBelow(f: Parents, done: set<Id>, x: Id)
    requires Acyclic(f) && x in f
    ensures Branches(f, done, x) <= Descendants(f, x)
  {
    forall d | d in Branches(f, done, x) ensures d in Descendants(f, x) {
      var c :| c in done && c in f && f[c] == Some(x) && d in Subtree(f, c);
      BelowSelf(f, x);
      BelowStep(f, c, x);
      BelowTrans(f, d, c, x);
      if d == x {
        ParentBelowChild(f, x, c);
      }
    }
  }

  /** Once every child is in, the branches are exactly the proper descendants. */
  lemma BranchesComplete(f: Parents, done: set<Id>, x: Id)
    requires Closed(f) && Acyclic(f) && x in f && Children(f, x) <= done
    ensures Branches(f, done, x) == Descendants(f, x)
    ensures Subtree(f, x) == Descendants(f, x) + {x}
  {
    BelowSelf(f, x);
    BranchesBelow(f, done, x);
    forall d | d in Descendants(f, x) ensures d in Branches(f, done, x) {
      var k: nat :| Up(f, d, k) == Some(x);
      UpPrefix(f, d, k - 1, k);
      var c := Up(f, d, k - 1).value;
      UpAdd(f, d, k - 1, 1);
      assert Up(f, c, 1) == Some(x);
      UpStays(f, d, k - 1);
      assert f[c] == Some(x) by {
        assert f[c].Some? && Up(f, f[c].value, 0) == Some(x);
      }
      assert d in Subtree(f, c);
      assert c in Children(f, x);
    }
  }

  // ---- Child-before-parent orders ----

  ghost predicate ChildrenFirst(f: Parents, order: seq<Id>) {
    forall i, c {:trigger c in Children(f, order[i])} :: 0 <= i < |order| && c in Children(f, order[i]) ==> c in order[..i]
  }

  /** A permutation of all ids with every child before its parent. */
  ghost predicate IsPostorder(f: Parents, order: seq<Id>) {
    && Distinct(order)
    && Elements(order) == f.Keys
    && ChildrenFirst(f, order)
  }

  lemma {:induction false} DescendantsFirst(f: Parents, order: seq<Id>, d: Id, k: nat, i: nat)
    requires ChildrenFirst(f, order) && i < |order|
    requires k >= 1 && Up(f, d, k) == Some(order[i])
    ensures exists j :: 0 <= j < i && order[j] == d
    decreases k
  {
    var p := f[d].value;
    assert d in Children(f, p);
    if k == 1 {
      assert p == order[i];
      assert d in order[..i];
    } else {
      DescendantsFirst(f, order, p, k - 1, i);
      var j :| 0 <= j < i && order[j] == p;
      assert d in order[..j];
    }
  }

  lemma SubtreeWithin(f: Parents, done: seq<Id>, c: Id)
    requires ChildrenFirst(f, done) && c in done
    ensures Subtree(f, c) <= Elements(done)
  {
    var i :| 0 <= i < |done| && done[i] == c;
    forall d | d in Subtree(f, c) ensures d in Elements(done) {
      var k: nat :| Up(f, d, k) == Some(c);
      if k > 0 {
        DescendantsFirst(f, done, d, k, i);
      }
    }
  }

  lemma BranchesWithin(f: Parents, done: seq<Id>, x: Id)
    requires ChildrenFirst(f, done)
    ensures Branches(f, Elements(done), x) <= Elements(done)
  {
    forall d | d in Branches(f, Elements(done), x) ensures d in Elements(done) {
      var c :| c in Elements(done) && c in f && f[c] == Some(x) && d in Subtree(f, c);
      SubtreeWithin(f, done, c);
    }
  }

  /** In a postorder, a parent comes after its child. */
  lemma ParentLater(f: Parents, order: seq<Id>, i: nat)
    requires IsPostorder(f, order) && i < |order| && Closed(f)
    requires order[i] in f && f[order[i]].Some?
    ensures exists j :: i < j < |order| && order[j] == f[order[i]].value
  {
    var p := f[order[i]].value;
    assert !Orphan(f, order[i]);
    assert p in Elements(order);
    var j :| 0 <= j < |order| && order[j] == p;
    assert order[i] in Children(f, order[j]);
    assert order[i] in order[..j];
  }

  /** Nothing that a child-first sequence contains can lie on a cycle. */
  lemma OrderedNotOnCycle(f: Parents, order: seq<Id>, x: Id)
    requires ChildrenFirst(f, order) && Distinct(order) && x in order
    ensures !OnCycle(f, x)
  {
    if OnCycle(f, x) {
      var k: nat :| k >= 1 && Up(f, x, k) == Some(x);
      var i :| 0 <= i < |order| && order[i] == x;
      DescendantsFirst(f, order, x, k, i);
    }
  }

  lemma PostorderAcyclic(f: Parents, order: seq<Id>)
    requires IsPostorder(f, order)
    ensures Acyclic(f)
  {
    forall x | x in f ensures !OnCycle(f, x) {
      assert x in Elements(order);
      OrderedNotOnCycle(f, order, x);
    }
  }

  // ---- The reduction ----

  ghost function Pending(f: Parents, done: set<Id>, x: Id): set<Id> {
    Children(f, x) - done
  }

  ghost predicate PendingCounted(f: Parents, done: set<Id>, remaining: map<Id, nat>, x: Id)
    requires x in remaining
  {
    remaining[x] == |Pending(f, done, x)|
  }

  /** `remaining` counts the unfinished children of every unfinished id. */
  ghost predicate CountsPending(f: Parents, done: set<Id>, remaining: map<Id, nat>) {
    && remaining.Keys == f.Keys - done
    && forall x {:trigger PendingCounted(f, done, remaining, x)} :: x in remaining ==> PendingCounted(f, done, remaining, x)
  }

  /** `counts` holds the number of direct children of every id. */
  ghost predicate CountsChildren(f: Parents, counts: map<Id, nat>) {
    CountsPending(f, {}, counts)
  }

  ghost predicate ZeroCounts(remaining: map<Id, nat>, ready: set<Id>) {
    forall x :: x in ready <==> x in remaining && remaining[x] == 0
  }

  ghost predicate FinishedChildrenFirst(f: Parents, done: seq<Id>) {
    Distinct(done) && Elements(done) <= f.Keys && ChildrenFirst(f, done)
  }

  /** The loop invariant of every reduction: `done` lists finished ids children first,
      `remaining` counts the unfinished children of all others, and `ready` is the
      set of those with none left. */
  ghost predicate Reducing(f: Parents, done: seq<Id>, remaining: map<Id, nat>, ready: set<Id>) {
    && FinishedChildrenFirst(f, done)
    && CountsPending(f, Elements(done), remaining)
    && ZeroCounts(remaining, ready)
  }

  /** What finishing `id` does to the unfinished-children counts. */
  function Finish(f: Parents, remaining: map<Id, nat>, id: Id): (rest: map<Id, nat>)
    requires id in f
    ensures rest.Keys == remaining.Keys - {id}
  {
    var rest := remaining - {id};
    match f[id]
    case None => rest
    case Some(parent) =>
      if parent in rest && rest[parent] > 0 then rest[parent := rest[parent] - 1] else rest
  }

  /** The ids that become ready when `id` finishes: at most its parent. */
  function Released(f: Parents, remaining: map<Id, nat>, id: Id): set<Id>
    requires id in f
  {
    match f[id]
    case None => {}
    case Some(parent) => if parent in remaining - {id} && remaining[parent] == 1 then {parent} else {}
  }

  lemma ChildCount(f: Parents, counts: map<Id, nat>, x: Id)
    requires CountsChildren(f, counts) && x in f
    ensures x in counts && counts[x] == |Children(f, x)|
  {
    assert PendingCounted(f, {}, counts, x);
    assert Pending(f, {}, x) == Children(f, x);
  }

  lemma ReducingStart(f: Parents, counts: map<Id, nat>, ready: set<Id>)
    requires CountsChildren(f, counts) && ZeroCounts(counts, ready)
    ensures Reducing(f, [], counts, ready)
  {
    assert Elements<Id>([]) == {};
  }

  lemma FinishedWithParent(f: Parents, done: seq<Id>, i: nat, id: Id)
    requires ChildrenFirst(f, done) && i < |done| && id in Children(f, done[i])
    ensures id in Elements(done)
  {
    assert id in done[..i];
  }

  /** A ready id has all its children finished, and its parent still waits for it. */
  lemma ReadyFacts(f: Parents, done: seq<Id>, remaining: map<Id, nat>, id: Id)
    requires Closed(f) && FinishedChildrenFirst(f, done) && CountsPending(f, Elements(done), remaining)
    requires id in remaining && remaining[id] == 0
    ensures id in f && id !in Elements(done) && Children(f, id) <= Elements(done)
    ensures f[id].Some? ==> f[id].value in remaining && f[id].value != id && remaining[f[id].value] > 0
  {
    DifferenceEmpty(Children(f, id), Elements(done));
    assert PendingCounted(f, Elements(done), remaining, id);
    if f[id].Some? {
      var p := f[id].value;
      assert !Orphan(f, id);
      forall i | 0 <= i < |done| ensures done[i] != p {
        if done[i] == p {
          FinishedWithParent(f, done, i, id);
        }
      }
      assert PendingCounted(f, Elements(done), remaining, p);
      assert id in Pending(f, Elements(done), p);
    }
  }

  lemma CountsPendingStep(f: Parents, done: set<Id>, remaining: map<Id, nat>, id: Id)
    requires CountsPending(f, done, remaining)
    requires id in f && id !in done
    requires f[id].Some? ==> f[id].value in remaining && f[id].value != id && remaining[f[id].value] > 0
    ensures CountsPending(f, done + {id}, Finish(f, remaining, id))
  {
    var after := Finish(f, remaining, id);
    forall x | x in after ensures PendingCounted(f, done + {id}, after, x) {
      assert PendingCounted(f, done, remaining, x);
      if f[id] == Some(x) {
        assert id in Pending(f, done, x);
        assert Pending(f, done + {id}, x) == Pending(f, done, x) - {id};
      } else {
        assert Pending(f, done + {id}, x) == Pending(f, done, x);
      }
    }
  }

  lemma FinishedStep(f: Parents, done: seq<Id>, id: Id)
    requires FinishedChildrenFirst(f, done)
    requires id in f && id !in Elements(done) && Children(f, id) <= Elements(done)
    ensures FinishedChildrenFirst(f, done + [id])
  {
    var now := done + [id];
    ElementsAppend(done, id);
    forall i, c | 0 <= i < |now| && c in Children(f, now[i]) ensures c in now[..i] {
      if i < |done| {
        assert c in done[..i] && now[..i] == done[..i];
      } else {
        assert c in Elements(done) && now[..i] == done;
      }
    }
  }

  lemma ZeroCountsStep(f: Parents, remaining: map<Id, nat>, ready: set<Id>, id: Id)
    requires ZeroCounts(remaining, ready) && id in ready && id in f
    requires f[id].Some? ==> f[id].value in remaining && f[id].value != id && remaining[f[id].value] > 0
    ensures ZeroCounts(Finish(f, remaining, id), ready - {id} + Released(f, remaining, id))
    ensures Released(f, remaining, id) !! ready
  {
  }

  lemma ReducingStep(f: Parents, done: seq<Id>, remaining: map<Id, nat>, ready: set<Id>, id: Id)
    requires Closed(f) && Reducing(f, done, remaining, ready) && id in ready
    ensures id in f && id !in Elements(done) && Children(f, id) <= Elements(done)
    ensures f[id].Some? ==> f[id].value in remaining && f[id].value != id && remaining[f[id].value] > 0
    ensures Released(f, remaining, id) !! ready
    ensures Reducing(f, done + [id], Finish(f, remaining, id), ready - {id} + Released(f, remaining, id))
  {
    ReadyFacts(f, done, remaining, id);
    CountsPendingStep(f, Elements(done), remaining, id);
    FinishedStep(f, done, id);
    ZeroCountsStep(f, remaining, ready, id);
    ElementsAppend(done, id);
  }

  // ---- What is left when nothing is ready lies on cycles ----

  ghost predicate HasChildIn(f: Parents, left: set<Id>, y: Id) {
    exists c :: c in left && c in f && f[c] == Some(y)
  }

  ghost predicate EachHasChildIn(f: Parents, left: set<Id>) {
    forall y {:trigger HasChildIn(f, left, y)} :: y in left ==> HasChildIn(f, left, y)
  }

  ghost predicate Link(f: Parents, walk: seq<Id>, i: nat)
    requires i + 1 < |walk|
  {
    walk[i + 1] in f && f[walk[i + 1]] == Some(walk[i])
  }

  /** Each entry of `walk` is the parent of the next one. */
  ghost predicate WalksDown(f: Parents, walk: seq<Id>) {
    forall i {:trigger Link(f, walk, i)} :: 0 <= i && i + 1 < |walk| ==> Link(f, walk, i)
  }

  lemma TakeNext(order: seq<Id>, k: nat)
    requires k < |order|
    ensures Elements(order[..k + 1]) == Elements(order[..k]) + {order[k]}
  {
    assert order[..k + 1] == order[..k] + [order[k]];
    ElementsAppend(order[..k], order[k]);
  }

  lemma {:induction false} DescendingWalk(f: Parents, left: set<Id>, x: Id, n: nat) returns (walk: seq<Id>)
    requires x in left && EachHasChildIn(f, left)
    ensures |walk| == n + 1 && walk[0] == x
    ensures Elements(walk) <= left
    ensures WalksDown(f, walk)
  {
    if n == 0 {
      walk := [x];
    } else {
      var upper := DescendingWalk(f, left, x, n - 1);
      assert upper[n - 1] in Elements(upper);
      assert HasChildIn(f, left, upper[n - 1]);
      var c :| c in left && c in f && f[c] == Some(upper[n - 1]);
      walk := upper + [c];
      ElementsAppend(upper, c);
      forall i | 0 <= i && i + 1 < |walk| ensures Link(f, walk, i) {
        if i + 1 < n {
          assert Link(f, upper, i);
        }
      }
    }
  }

  lemma {:induction false} WalkUp(f: Parents, walk: seq<Id>, i: nat, j: nat)
    requires i <= j < |walk| && WalksDown(f, walk)
    ensures Up(f, walk[j], j - i) == Some(walk[i])
    decreases j - i
  {
    if i < j {
      WalkUp(f, walk, i, j - 1);
      assert Link(f, walk, j - 1);
    }
  }

  /** If every member of `left` has a child in `left`, every member is on a cycle: a walk
      down through `left` must repeat, and climbing back from the repeat returns to its start. */
  lemma LeftoverOnCycle(f: Parents, left: set<Id>, x: Id)
    requires x in left
    requires EachHasChildIn(f, left)
    ensures OnCycle(f, x)
  {
    var walk := DescendingWalk(f, left, x, |left|);
    if Distinct(walk) {
      DistinctLength(walk, left);
      assert false;
    } else {
      var i, j :| 0 <= i < j < |walk| && walk[i] == walk[j];
      WalkUp(f, walk, 0, i);
      WalkUp(f, walk, 0, j);
      WalkUp(f, walk, j - i, j);
      assert Up(f, walk[j], i) == Some(walk[j - i]);
      WalkUp(f, walk, 0, j - i);
      assert Up(f, walk[i], i) == Some(x);
      assert walk[j - i] == x;
      assert Up(f, x, j - i) == Some(x);
    }
  }

  /** When nothing is ready, exactly the ids on cycles remain. */
  lemma ReducingEnd(f: Parents, done: seq<Id>, remaining: map<Id, nat>)
    requires Reducing(f, done, remaining, {})
    ensures forall x :: x in remaining <==> x in f && OnCycle(f, x)
    ensures remaining.Keys == {} ==> IsPostorder(f, done) && Acyclic(f)
  {
    forall y | y in remaining ensures HasChildIn(f, remaining.Keys, y) {
      assert y !in {};
      assert PendingCounted(f, Elements(done), remaining, y);
      assert Pending(f, Elements(done), y) != {};
      var c :| c in Pending(f, Elements(done), y);
      assert c in remaining.Keys;
    }
    forall x | x in remaining ensures OnCycle(f, x) {
      LeftoverOnCycle(f, remaining.Keys, x);
    }
    forall x | x in Elements(done) ensures !OnCycle(f, x) {
      OrderedNotOnCycle(f, done, x);
    }
    if remaining.Keys == {} {
      DifferenceEmpty(f.Keys, Elements(done));
      PostorderAcyclic(f, done);
    }
  }

  // ---- The least-first reduction of the completion engine and the progress roll-up ----

  datatype TopologyError = MissingParent(item: Id, parent: Id) | Cycle(item: Id)

  ghost function Orphans(f: Parents): set<Id> {
    set x | x in f && Orphan(f, x)
  }

  ghost function CycleIds(f: Parents): set<Id> {
    set x | x in f && OnCycle(f, x)
  }

  /** The first complaint about the topology: the least orphan, else the least id on a cycle. */
  ghost function Fault(f: Parents): Option<TopologyError> {
    if Orphans(f) != {} then
      var item := Least(Orphans(f));
      Some(MissingParent(item, f[item].value))
    else if CycleIds(f) != {} then Some(Cycle(Least(CycleIds(f))))
    else None
  }

  lemma FaultFree(f: Parents)
    ensures Orphans(f) == {} <==> Closed(f)
    ensures CycleIds(f) == {} <==> Acyclic(f)
    ensures Fault(f).None? <==> Closed(f) && Acyclic(f)
  {
    if Orphans(f) == {} {
      forall x ensures !Orphan(f, x) {
        assert x !in Orphans(f);
      }
    }
    if CycleIds(f) == {} {
      forall x | x in f ensures !OnCycle(f, x) {
        assert x !in CycleIds(f);
      }
    }
  }

  ghost predicate SeenCounted(f: Parents, seen: set<Id>, counts: map<Id, nat>, x: Id)
    requires x in counts
  {
    counts[x] == |Children(f, x) * seen|
  }

  /** Children counted so far, when the ids in `seen` have been visited. */
  ghost predicate CountsSeen(f: Parents, seen: set<Id>, counts: map<Id, nat>) {
    && counts.Keys == f.Keys
    && forall x {:trigger SeenCounted(f, seen, counts, x)} :: x in counts ==> SeenCounted(f, seen, counts, x)
  }

  lemma CountsSeenStart(f: Parents, counts: map<Id, nat>)
    requires counts.Keys == f.Keys && forall x :: x in counts ==> counts[x] == 0
    ensures CountsSeen(f, {}, counts)
  {
    forall x | x in counts ensures SeenCounted(f, {}, counts, x) {
      assert Children(f, x) * {} == {};
    }
  }

  lemma SeenStep(f: Parents, seen: set<Id>, id: Id, x: Id)
    requires id in f && id !in seen
    ensures |Children(f, x) * (seen + {id})| == |Children(f, x) * seen| + if f[id] == Some(x) then 1 else 0
  {
    if f[id] == Some(x) {
      assert Children(f, x) * (seen + {id}) == Children(f, x) * seen + {id};
    } else {
      assert Children(f, x) * (seen + {id}) == Children(f, x) * seen;
    }
  }

  /** One more child for `parent`. */
  function AddChild(counts: map<Id, nat>, parent: Option<Id>): map<Id, nat>
    requires parent.Some? ==> parent.value in counts
  {
    if parent.Some? then counts[parent.value := counts[parent.value] + 1] else counts
  }

  lemma CountsSeenStep(f: Parents, seen: set<Id>, counts: map<Id, nat>, id: Id)
    requires CountsSeen(f, seen, counts) && id in f && id !in seen
    requires f[id].Some? ==> f[id].value in counts
    ensures CountsSeen(f, seen + {id}, AddChild(counts, f[id]))
  {
    var after := AddChild(counts, f[id]);
    forall x | x in after ensures SeenCounted(f, seen + {id}, after, x) {
      assert SeenCounted(f, seen, counts, x);
      SeenStep(f, seen, id, x);
    }
  }

  lemma CountsSeenAll(f: Parents, counts: map<Id, nat>)
    requires CountsSeen(f, f.Keys, counts)
    ensures CountsChildren(f, counts)
  {
    forall x | x in counts ensures PendingCounted(f, {}, counts, x) {
      assert SeenCounted(f, f.Keys, counts, x);
      assert Children(f, x) * f.Keys == Pending(f, {}, x);
    }
  }

  /** Counts the direct children of every item, visiting items in ascending order. */
  method CountChildren(f: Parents) returns (r: Result<map<Id, nat>, TopologyError>)
    ensures r.Ok? <==> Closed(f)
    ensures r.Ok? ==> CountsChildren(f, r.value)
    ensures r.Err? ==> Fault(f) == Some(r.error)
  {
    var counts: map<Id, nat> := map id | id in f :: 0;
    var todo := f.Keys;
    ghost var seen: set<Id> := {};
    CountsSeenStart(f, counts);
    while todo != {}
      invariant todo !! seen && todo + seen == f.Keys
      invariant forall y, z :: y in seen && z in todo ==> y < z
      invariant CountsSeen(f, seen, counts)
      invariant forall y :: y in seen ==> !Orphan(f, y)
    {
      var id := Least(todo);
      AscendingStep(f.Keys, seen, todo);
      todo := todo - {id};
      if f[id].Some? && f[id].value !in counts {
        assert Orphan(f, id) && id in Orphans(f);
        assert Least(Orphans(f)) == id;
        return Err(MissingParent(id, f[id].value));
      }
      CountsSeenStep(f, seen, counts, id);
      counts := AddChild(counts, f[id]);
      seen := seen + {id};
    }
    CountsSeenAll(f, counts);
    assert Closed(f) by {
      forall x ensures !Orphan(f, x) {
        assert x in f ==> x in seen;
      }
    }
    r := Ok(counts);
  }

  /** The ids that a least-first reduction may take next. */
  ghost function Ready(f: Parents, done: set<Id>): set<Id> {
    set x | x in f && x !in done && Children(f, x) <= done
  }

  /** The first `n` ids when the least ready id is always taken next. */
  ghost function LeastFirst(f: Parents, n: nat): (order: seq<Id>)
    ensures Elements(order) <= f.Keys
  {
    if n == 0 then []
    else
      var before := LeastFirst(f, n - 1);
      var ready := Ready(f, Elements(before));
      if ready == {} then before
      else ElementsAppend(before, Least(ready)); before + [Least(ready)]
  }

  lemma LeastFirstStep(f: Parents, order: seq<Id>, id: Id)
    requires order == LeastFirst(f, |order|)
    requires Ready(f, Elements(order)) != {} && id == Least(Ready(f, Elements(order)))
    ensures order + [id] == LeastFirst(f, |order + [id]|)
  {
  }

  /** In an acyclic forest something is ready until everything is finished. */
  lemma SomethingReady(f: Parents, done: set<Id>)
    requires Acyclic(f) && done <= f.Keys && done != f.Keys
    ensures Ready(f, done) != {}
  {
    var left := f.Keys - done;
    if Ready(f, done) == {} {
      forall y | y in left ensures HasChildIn(f, left, y) {
        assert y !in Ready(f, done);
        var c :| c in Children(f, y) && c !in done;
        assert c in left;
      }
      DifferenceEmpty(f.Keys, done);
      var x :| x in left;
      LeftoverOnCycle(f, left, x);
    }
  }

  lemma {:induction false} LeastFirstPostorder(f: Parents, n: nat)
    requires Acyclic(f) && n <= |f|
    ensures |LeastFirst(f, n)| == n && FinishedChildrenFirst(f, LeastFirst(f, n))
    ensures n == |f| ==> IsPostorder(f, LeastFirst(f, n))
  {
    if n > 0 {
      LeastFirstPostorder(f, n - 1);
      var before := LeastFirst(f, n - 1);
      DistinctCardinality(before);
      assert |f.Keys| == |f|;
      SomethingReady(f, Elements(before));
      FinishedStep(f, before, Least(Ready(f, Elements(before))));
    }
    var order := LeastFirst(f, n);
    DistinctCardinality(order);
    if n == |f| && Elements(order) != f.Keys {
      ProperSubsetSmaller(Elements(order), f.Keys);
    }
  }

  lemma ReadyIsZeroCount(f: Parents, done: set<Id>, remaining: map<Id, nat>, ready: set<Id>)
    requires CountsPending(f, done, remaining) && ZeroCounts(remaining, ready)
    ensures ready == Ready(f, done)
  {
    forall x | x in remaining ensures x in ready <==> Children(f, x) <= done {
      assert PendingCounted(f, done, remaining, x);
      DifferenceEmpty(Children(f, x), done);
    }
  }

  /** Repeatedly finishes the least ready id until none is ready. */
  method ReduceLeastFirst(f: Parents, counts: map<Id, nat>) returns (order: seq<Id>, remaining: map<Id, nat>)
    requires Closed(f) && CountsChildren(f, counts)
    ensures Reducing(f, order, remaining, {})
    ensures order == LeastFirst(f, |order|)
  {
    remaining := counts;
    var ready := set id | id in remaining && remaining[id] == 0;
    order := [];
    ReducingStart(f, remaining, ready);
    while ready != {}
      invariant Reducing(f, order, remaining, ready)
      invariant order == LeastFirst(f, |order|)
      decreases remaining.Keys
    {
      var id := Least(ready);
      ReadyIsZeroCount(f, Elements(order), remaining, ready);
      LeastFirstStep(f, order, id);
      ReducingStep(f, order, remaining, ready, id);
      order := order + [id];
      ready := ready - {id} + Released(f, remaining, id);
      remaining := Finish(f, remaining, id);
    }
  }

  /** The iterative reduction: succeeds exactly on acyclic closed maps with a permutation
      of all ids, children first; otherwise names the least id that lies on a cycle. */
  method Postorder(f: Parents) returns (r: Result<seq<Id>, TopologyError>)
    ensures r.Ok? <==> Closed(f) && Acyclic(f)
    ensures r.Ok? ==> IsPostorder(f, r.value) && r.value == LeastFirst(f, |f|)
    ensures r.Err? ==> Fault(f) == Some(r.error)
  {
    var counts := CountChildren(f);
    if counts.Err? {
      return Err(counts.error);
    }
    var order, remaining := ReduceLeastFirst(f, counts.value);
    ReducingEnd(f, order, remaining);
    FaultFree(f);
    if remaining.Keys != {} {
      assert remaining.Keys == CycleIds(f);
      return Err(Cycle(Least(remaining.Keys)));
    }
    DistinctCardinality(order);
    r := Ok(order);
  }

  // ---- The stack reduction of the duration roll-up and the occurrence member check ----

  /** Collects the ids with a zero count in ascending order. */
  method InitialStack(counts: map<Id, nat>) returns (ready: seq<Id>)
    ensures Distinct(ready) && ZeroCounts(counts, Elements(ready))
  {
    ready := [];
    var todo := counts.Keys;
    ghost var seen: set<Id> := {};
    while todo != {}
      invariant todo !! seen && todo + seen == counts.Keys
      invariant forall y, z :: y in seen && z in todo ==> y < z
      invariant Distinct(ready)
      invariant forall x :: x in Elements(ready) <==> x in seen && counts[x] == 0
    {
      var id := Least(todo);
      AscendingStep(counts.Keys, seen, todo);
      if counts[id] == 0 {
        assert id !in Elements(ready);
        PushNew(ready, id);
        ready := ready + [id];
      }
      todo := todo - {id};
      seen := seen + {id};
    }
  }

  /** The stack after popping its last id `id` and pushing what that releases. */
  function NextStack(f: Parents, remaining: map<Id, nat>, ready: seq<Id>): seq<Id>
    requires ready != [] && ready[|ready| - 1] in f
  {
    var id := ready[|ready| - 1];
    var rest := ready[..|ready| - 1];
    if f[id].Some? && f[id].value in Released(f, remaining, id) then rest + [f[id].value] else rest
  }

  lemma StackStep(f: Parents, done: seq<Id>, remaining: map<Id, nat>, ready: seq<Id>)
    requires Closed(f) && ready != [] && Distinct(ready) && Reducing(f, done, remaining, Elements(ready))
    ensures var id := ready[|ready| - 1];
      && id in f && id in remaining && id !in Elements(done) && Children(f, id) <= Elements(done)
      && (f[id].Some? ==> f[id].value in remaining && f[id].value != id && remaining[f[id].value] > 0)
      && Distinct(NextStack(f, remaining, ready))
      && Reducing(f, done + [id], Finish(f, remaining, id), Elements(NextStack(f, remaining, ready)))
  {
    var id := ready[|ready| - 1];
    assert id in Elements(ready);
    ReducingStep(f, done, remaining, Elements(ready), id);
    PopLast(ready);
    var rest := ready[..|ready| - 1];
    var released := Released(f, remaining, id);
    if f[id].Some? && f[id].value in released {
      assert f[id].value !in Elements(ready);
      PushNew(rest, f[id].value);
      assert Elements(NextStack(f, remaining, ready)) == Elements(ready) - {id} + released;
    } else {
      assert Elements(NextStack(f, remaining, ready)) == Elements(ready) - {id} + released;
    }
  }

  // ---- Flags inherited from ancestors ----

  /** Some ancestor of `x`, or `x` itself, is flagged. */
  ghost predicate Inherits(f: Parents, flagged: set<Id>, x: Id) {
    exists a :: a in flagged && Below(f, x, a)
  }

  lemma InheritsStep(f: Parents, flagged: set<Id>, x: Id)
    requires x in f
    ensures Inherits(f, flagged, x) <==> x in flagged || (f[x].Some? && Inherits(f, flagged, f[x].value))
  {
    forall a ensures Below(f, x, a) <==> x == a || (f[x].Some? && Below(f, f[x].value, a)) {
      BelowStep(f, x, a);
    }
  }

  /** `s` contains, with each id, all its children. */
  ghost predicate ChildClosed(f: Parents, s: set<Id>) {
    forall p {:trigger Children(f, p)} :: p in s ==> Children(f, p) <= s
  }

  lemma {:induction false} HeirWithin(f: Parents, s: set<Id>, x: Id, a: Id, k: nat)
    requires ChildClosed(f, s) && a in s && Up(f, x, k) == Some(a)
    ensures x in s
    decreases k
  {
    if k > 0 {
      HeirWithin(f, s, f[x].value, a, k - 1);
      assert x in Children(f, f[x].value);
    }
  }

  /** A child-closed set of heirs that contains all flagged ids is the set of all heirs. */
  lemma HeirsExactly(f: Parents, flagged: set<Id>, s: set<Id>)
    requires ChildClosed(f, s) && flagged <= s <= f.Keys
    requires forall x {:trigger Inherits(f, flagged, x)} :: x in s ==> Inherits(f, flagged, x)
    ensures forall x {:trigger Inherits(f, flagged, x)} :: x in s <==> Inherits(f, flagged, x)
  {
    forall x | Inherits(f, flagged, x) ensures x in s {
      var a :| a in flagged && Below(f, x, a);
      var k: nat :| Up(f, x, k) == Some(a);
      HeirWithin(f, s, x, a, k);
    }
  }

  ghost predicate Marked(f: Parents, flagged: set<Id>, marks: map<Id, bool>, x: Id)
    requires x in marks
  {
    marks[x] <==> Inherits(f, flagged, x)
  }

  ghost predicate AllMarked(f: Parents, flagged: set<Id>, marks: map<Id, bool>) {
    forall x {:trigger Marked(f, flagged, marks, x)} :: x in marks ==> Marked(f, flagged, marks, x)
  }

  /** The mark of `id`, once its parent is marked. */
  function MarkOf(f: Parents, flagged: set<Id>, marks: map<Id, bool>, id: Id): bool
    requires id in f && (f[id].Some? ==> f[id].value in marks)
  {
    id in flagged || (f[id].Some? && marks[f[id].value])
  }

  lemma MarkedStep(f: Parents, flagged: set<Id>, marks: map<Id, bool>, id: Id)
    requires id in f && AllMarked(f, flagged, marks)
    requires f[id].Some? ==> f[id].value in marks
    ensures AllMarked(f, flagged, marks[id := MarkOf(f, flagged, marks, id)])
  {
    var after := marks[id := MarkOf(f, flagged, marks, id)];
    InheritsStep(f, flagged, id);
    if f[id].Some? {
      assert Marked(f, flagged, marks, f[id].value);
    }
    forall x | x in after ensures Marked(f, flagged, after, x) {
      if x != id {
        assert Marked(f, flagged, marks, x);
      }
    }
  }

  /** The top-down pass: a reversed postorder visits parents first, so one lookup settles each id. */
  method MarkInherited(f: Parents, flagged: set<Id>, order: seq<Id>) returns (marks: map<Id, bool>)
    requires Closed(f) && IsPostorder(f, order)
    ensures marks.Keys == f.Keys && AllMarked(f, flagged, marks)
  {
    marks := map[];
    var i := |order|;
    while i > 0
      invariant 0 <= i <= |order|
      invariant marks.Keys == Elements(order[i..])
      invariant AllMarked(f, flagged, marks)
    {
      i := i - 1;
      var id := order[i];
      assert id in Elements(order);
      if f[id].Some? {
        ParentLater(f, order, i);
        assert f[id].value in order[i + 1..];
      }
      assert order[i..] == [id] + order[i + 1..];
      MarkedStep(f, flagged, marks, id);
      marks := marks[id := MarkOf(f, flagged, marks, id)];
    }
    assert order[0..] == order;
  }

  // ---- Trees ----

  /** Every parent chain reaches the named root, which has no parent. */
  ghost predicate IsTree(f: Parents, root: Id) {
    root in f && f[root].None? && forall x {:trigger Below(f, x, root)} :: x in f ==> Below(f, x, root)
  }

  ghost predicate OnlyRoot(f: Parents, root: Id) {
    forall x {:trigger f[x]} :: x in f && f[x].None? ==> x == root
  }

  lemma {:induction false} OrderedReachesRoot(f: Parents, order: seq<Id>, root: Id, i: nat)
    requires Closed(f) && IsPostorder(f, order) && OnlyRoot(f, root) && i < |order|
    ensures Below(f, order[i], root)
    decreases |order| - i
  {
    assert order[i] in Elements(order);
    if f[order[i]].None? {
      BelowSelf(f, root);
    } else {
      ParentLater(f, order, i);
      var j :| i < j < |order| && order[j] == f[order[i]].value;
      OrderedReachesRoot(f, order, root, j);
      BelowStep(f, order[i], root);
    }
  }

  lemma TreeNode(f: Parents, root: Id, x: Id)
    requires IsTree(f, root) && x in f
    ensures f[x].None? ==> x == root
    ensures !Orphan(f, x) && !OnCycle(f, x)
  {
    assert Below(f, x, root);
    BelowStep(f, x, root);
    if f[x].Some? {
      BelowStep(f, f[x].value, root);
    }
    if OnCycle(f, x) {
      var k: nat :| k >= 1 && Up(f, x, k) == Some(x);
      var j: nat :| Up(f, x, j) == Some(root);
      CycleNeverEnds(f, x, k, j + 1);
      UpAdd(f, x, j, 1);
    }
  }

  /** A tree is a closed acyclic map whose only parentless node is the root. */
  lemma TreeIff(f: Parents, root: Id)
    requires root in f && f[root].None?
    ensures IsTree(f, root) <==> Closed(f) && Acyclic(f) && OnlyRoot(f, root)
  {
    if IsTree(f, root) {
      forall x ensures !Orphan(f, x) {
        if x in f {
          TreeNode(f, root, x);
        }
      }
      forall x | x in f ensures !OnCycle(f, x) && (f[x].None? ==> x == root) {
        TreeNode(f, root, x);
      }
    }
    if Closed(f) && Acyclic(f) && OnlyRoot(f, root) {
      LeastFirstPostorder(f, |f|);
      var order := LeastFirst(f, |f|);
      forall x | x in f ensures Below(f, x, root) {
        assert x in Elements(order);
        var i :| 0 <= i < |order| && order[i] == x;
        OrderedReachesRoot(f, order, root, i);
      }
    }
  }
}
