/** What preparing a canonical snapshot comes to, stated on the items and their ancestor chains. */
module CanonicalMeaning {
  import opened Base
  import opened Forest
  import opened Indexing
  import opened CanonicalPreparation

  /** `a` is `x` itself or is reached from it by following parents; `a` need not be an item. */
  ghost predicate Above(nodes: Nodes, a: Id, x: Id) {
    Below(ParentMap(nodes), x, a)
  }

  /** The chain of `x` ends at an item without a parent. */
  ghost predicate Rooted(nodes: Nodes, x: Id) {
    exists r :: r in nodes && nodes[r].parent.None? && Above(nodes, r, x)
  }

  ghost predicate InboxAbove(nodes: Nodes, x: Id) {
    exists a :: a in nodes && nodes[a].inInbox && Above(nodes, a, x)
  }

  ghost predicate Insensitive(nodes: Nodes, a: Id) {
    a in nodes && !nodes[a].isSensitive
  }

  /** A planned item is shown as insensitive exactly when nothing up to its root is sensitive. */
  ghost predicate AllInsensitive(nodes: Nodes, x: Id) {
    Rooted(nodes, x) && forall a :: Above(nodes, a, x) ==> Insensitive(nodes, a)
  }

  /** An item that can be planned by itself. */
  ghost predicate Ready(nodes: Nodes, a: Id) {
    a in nodes && nodes[a].verdict.Plannable? && !nodes[a].inInbox
  }

  /** Everything from `x` up can be planned. */
  ghost predicate AllReady(nodes: Nodes, x: Id) {
    x in nodes && forall a :: Above(nodes, a, x) ==> Ready(nodes, a)
  }

  // ---- Sensitivity ----

  lemma AllInsensitiveStep(nodes: Nodes, x: Id)
    ensures AllInsensitive(nodes, x) <==>
      Insensitive(nodes, x) && (nodes[x].parent.None? || AllInsensitive(nodes, nodes[x].parent.value))
  {
    var f := ParentMap(nodes);
    BelowSelf(f, x);
    forall a ensures Above(nodes, a, x) <==> a == x || (x in nodes && nodes[x].parent.Some? && Above(nodes, a, nodes[x].parent.value)) {
      BelowStep(f, x, a);
    }
  }

  lemma {:induction false} ClearIsInsensitive(nodes: Nodes, x: Id, k: nat)
    requires ClearFor(ParentMap(nodes), SensitiveIds(nodes), x, k)
    ensures AllInsensitive(nodes, x)
    decreases k
  {
    if k > 0 {
      ClearIsInsensitive(nodes, nodes[x].parent.value, k - 1);
    }
    AllInsensitiveStep(nodes, x);
  }

  lemma {:induction false} InsensitiveIsClear(nodes: Nodes, x: Id, k: nat)
    requires AllInsensitive(nodes, x)
    requires Up(ParentMap(nodes), x, k).Some? && Up(ParentMap(nodes), x, k).value in nodes
    requires nodes[Up(ParentMap(nodes), x, k).value].parent.None?
    ensures ClearFor(ParentMap(nodes), SensitiveIds(nodes), x, k)
    decreases k
  {
    AllInsensitiveStep(nodes, x);
    if k > 0 {
      InsensitiveIsClear(nodes, nodes[x].parent.value, k - 1);
    }
  }

  lemma ClearIff(nodes: Nodes, x: Id)
    ensures Clear(ParentMap(nodes), SensitiveIds(nodes), x) <==> AllInsensitive(nodes, x)
  {
    if Clear(ParentMap(nodes), SensitiveIds(nodes), x) {
      var k: nat :| ClearFor(ParentMap(nodes), SensitiveIds(nodes), x, k);
      ClearIsInsensitive(nodes, x, k);
    }
    if AllInsensitive(nodes, x) {
      var r :| r in nodes && nodes[r].parent.None? && Above(nodes, r, x);
      var k: nat :| Up(ParentMap(nodes), x, k) == Some(r);
      InsensitiveIsClear(nodes, x, k);
    }
  }

  // ---- What is planned ----

  lemma InboxIff(nodes: Nodes, x: Id)
    requires x in nodes
    ensures x in InboxHeirs(nodes) <==> InboxAbove(nodes, x)
  {
  }

  lemma ParentStays(nodes: Nodes, x: Id, a: Id)
    requires x in PlannedIds(nodes) && a in PlannableIds(nodes) && nodes[a].parent.Some?
    requires Below(AcceptedMap(nodes, PlannableIds(nodes)), x, a)
    ensures nodes[a].parent.value in PlannableIds(nodes)
  {
    var f := AcceptedMap(nodes, PlannableIds(nodes));
    assert a !in Orphans(f);
  }

  lemma ChainStep(f: Parents, x: Id, k: nat, a: Id)
    requires Up(f, x, k) == Some(a)
    ensures Up(f, x, k + 1) == if a in f && f[a].Some? then Some(f[a].value) else None
  {
    UpAdd(f, x, k, 1);
    if a in f && f[a].Some? {
      assert Up(f, f[a].value, 0) == Some(f[a].value);
    }
  }

  /** The chain of a planned item never leaves the items that can be planned. */
  lemma {:induction false} PlannedChain(nodes: Nodes, x: Id, k: nat)
    requires x in PlannedIds(nodes) && Up(ParentMap(nodes), x, k).Some?
    ensures var f := AcceptedMap(nodes, PlannableIds(nodes)); var a := Up(ParentMap(nodes), x, k).value;
      a in PlannableIds(nodes) && Up(f, x, k) == Some(a)
  {
    if k > 0 {
      var g, f := ParentMap(nodes), AcceptedMap(nodes, PlannableIds(nodes));
      UpPrefix(g, x, k - 1, k);
      PlannedChain(nodes, x, k - 1);
      var a := Up(g, x, k - 1).value;
      ChainStep(g, x, k - 1, a);
      ChainStep(f, x, k - 1, a);
      ParentStays(nodes, x, a);
    }
  }

  lemma PlannedIsReady(nodes: Nodes, x: Id)
    requires x in PlannedIds(nodes)
    ensures AllReady(nodes, x)
  {
    forall a: Id | Above(nodes, a, x) ensures Ready(nodes, a) {
      var k: nat :| Up(ParentMap(nodes), x, k) == Some(a);
      PlannedChain(nodes, x, k);
      BelowSelf(ParentMap(nodes), a);
      InboxIff(nodes, a);
    }
  }

  lemma ReadyIsPlannable(nodes: Nodes, x: Id)
    requires AllReady(nodes, x)
    ensures x in PlannableIds(nodes)
  {
    BelowSelf(ParentMap(nodes), x);
    assert Above(nodes, x, x) && Ready(nodes, x);
    InboxIff(nodes, x);
    assert !InboxAbove(nodes, x);
  }

  lemma ReadyAbove(nodes: Nodes, x: Id, a: Id)
    requires AllReady(nodes, x) && Above(nodes, a, x)
    ensures AllReady(nodes, a)
  {
    forall b: Id | Above(nodes, b, a) ensures Ready(nodes, b) {
      BelowTrans(ParentMap(nodes), x, a, b);
    }
    BelowSelf(ParentMap(nodes), a);
  }

  lemma {:induction false} AcceptedUp(nodes: Nodes, x: Id, k: nat)
    ensures var f := AcceptedMap(nodes, PlannableIds(nodes));
      Up(f, x, k).Some? ==> Up(ParentMap(nodes), x, k) == Up(f, x, k)
    decreases k
  {
    if k > 0 && x in PlannableIds(nodes) && nodes[x].parent.Some? {
      AcceptedUp(nodes, nodes[x].parent.value, k - 1);
    }
  }

  lemma ReadyIsAvailable(nodes: Nodes, x: Id)
    requires AllReady(nodes, x)
    ensures !Unavailable(nodes, x)
  {
    var g, f := ParentMap(nodes), AcceptedMap(nodes, PlannableIds(nodes));
    forall o: Id | Below(f, x, o) ensures o !in Orphans(f) {
      var k: nat :| Up(f, x, k) == Some(o);
      AcceptedUp(nodes, x, k);
      assert Above(nodes, o, x);
      ReadyAbove(nodes, x, o);
      if nodes[o].parent.Some? {
        var b := nodes[o].parent.value;
        BelowStep(g, o, b);
        BelowSelf(g, b);
        ReadyAbove(nodes, o, b);
        ReadyIsPlannable(nodes, b);
      }
    }
  }

  /** An item is planned exactly when it and all its ancestors can be planned. */
  lemma PlannedIff(nodes: Nodes, x: Id)
    ensures x in PlannedIds(nodes) <==> AllReady(nodes, x)
  {
    if x in PlannedIds(nodes) {
      PlannedIsReady(nodes, x);
    }
    if AllReady(nodes, x) {
      ReadyIsPlannable(nodes, x);
      ReadyIsAvailable(nodes, x);
    }
  }

  /** An item is rejected exactly when it asks for planning outside the Inbox and cannot be planned. */
  lemma RejectedIff(nodes: Nodes, x: Id)
    ensures x in RejectedIds(nodes) <==>
      x in nodes && !InboxAbove(nodes, x) && !nodes[x].verdict.ContextOnly? && !AllReady(nodes, x)
  {
    PlannedIff(nodes, x);
    if x in nodes {
      InboxIff(nodes, x);
    }
    if AllReady(nodes, x) {
      ReadyIsPlannable(nodes, x);
    }
  }

  // ---- The prepared snapshot ----

  /** In the Inbox, below it, or without plannable work. */
  ghost function SetAsideIds(nodes: Nodes): set<Id> {
    set x | x in nodes && (InboxAbove(nodes, x) || nodes[x].verdict.ContextOnly?)
  }

  ghost predicate PlannedAs(nodes: Nodes, planned: map<Id, PlannedItem>, x: Id) {
    && (x in planned <==> AllReady(nodes, x))
    && (x in planned ==>
          && planned[x].parent == nodes[x].parent
          && (planned[x].isSensitive <==> !AllInsensitive(nodes, x))
          && (planned[x].hasChildrenOutsidePlan <==> exists c :: c in nodes && nodes[c].parent == Some(x) && !AllReady(nodes, c)))
  }

  /** What a successful preparation promises, item by item. */
  ghost predicate Prepares(nodes: Nodes, p: Prepared) {
    && (forall x {:trigger AllReady(nodes, x)} :: PlannedAs(nodes, p.planned, x))
    && (forall x :: x in p.rejected <==> x in nodes && !InboxAbove(nodes, x) && !nodes[x].verdict.ContextOnly? && !AllReady(nodes, x))
    && p.withoutWork == |SetAsideIds(nodes)|
  }

  lemma OmittedIff(nodes: Nodes, planned: set<Id>, x: Id)
    requires planned == PlannedIds(nodes)
    ensures HasOmittedChild(nodes, planned, x) <==> exists c :: c in nodes && nodes[c].parent == Some(x) && !AllReady(nodes, c)
  {
    forall c ensures c in planned <==> AllReady(nodes, c) {
      PlannedIff(nodes, c);
    }
  }

  lemma PlannedMeans(nodes: Nodes, planned: map<Id, PlannedItem>, x: Id)
    requires planned.Keys == PlannedIds(nodes) && PlansFaithfully(nodes, planned)
    ensures PlannedAs(nodes, planned, x)
  {
    PlannedIff(nodes, x);
    if x in planned {
      assert planned[x].hasChildrenOutsidePlan <==> HasOmittedChild(nodes, planned.Keys, x);
      OmittedIff(nodes, planned.Keys, x);
      assert planned[x].isSensitive <==> !Clear(ParentMap(nodes), SensitiveIds(nodes), x);
      ClearIff(nodes, x);
    }
  }

  /** `x` is in the whole exactly when it is in one of the parts, and in no two of them. */
  ghost predicate InOneOf(a: set<Id>, b: set<Id>, c: set<Id>, whole: set<Id>, x: Id) {
    && (x in whole <==> x in a || x in b || x in c)
    && !(x in a && x in b) && !(x in a && x in c) && !(x in b && x in c)
  }

  lemma ThreeParts(a: set<Id>, b: set<Id>, c: set<Id>, whole: set<Id>)
    requires forall x {:trigger InOneOf(a, b, c, whole, x)} :: InOneOf(a, b, c, whole, x)
    ensures |a| + |b| + |c| == |whole|
  {
    assert forall x {:trigger x in whole} :: InOneOf(a, b, c, whole, x);
    assert forall x {:trigger x in a} :: InOneOf(a, b, c, whole, x);
    assert forall x {:trigger x in c} :: InOneOf(a, b, c, whole, x);
    UnionCardinality(a, b);
    UnionCardinality(a + b, c);
    assert a + b + c == whole;
  }

  lemma OneOfThree(nodes: Nodes, x: Id)
    ensures InOneOf(PlannedIds(nodes), RejectedIds(nodes), SetAsideIds(nodes), nodes.Keys, x)
  {
    PlannedIff(nodes, x);
    RejectedIff(nodes, x);
    if AllReady(nodes, x) {
      ReadyIsPlannable(nodes, x);
      InboxIff(nodes, x);
    }
  }

  lemma SetAsideCount(nodes: Nodes)
    ensures |PlannedIds(nodes)| + |RejectedIds(nodes)| + |SetAsideIds(nodes)| == |nodes.Keys|
  {
    forall x ensures InOneOf(PlannedIds(nodes), RejectedIds(nodes), SetAsideIds(nodes), nodes.Keys, x) {
      OneOfThree(nodes, x);
    }
    ThreeParts(PlannedIds(nodes), RejectedIds(nodes), SetAsideIds(nodes), nodes.Keys);
  }

  /** What the contract of the preparation says, in terms of the items. */
  lemma PreparationMeaning(nodes: Nodes, p: Prepared)
    requires p.planned.Keys == PlannedIds(nodes) && PlansFaithfully(nodes, p.planned)
    requires Distinct(p.rejected) && Elements(p.rejected) == RejectedIds(nodes)
    requires |p.planned| + p.withoutWork + |p.rejected| == |nodes|
    ensures Prepares(nodes, p)
  {
    forall x ensures PlannedAs(nodes, p.planned, x) {
      PlannedMeans(nodes, p.planned, x);
    }
    forall x ensures x in p.rejected <==> x in nodes && !InboxAbove(nodes, x) && !nodes[x].verdict.ContextOnly? && !AllReady(nodes, x) {
      RejectedIff(nodes, x);
      assert x in p.rejected <==> x in Elements(p.rejected);
    }
    DistinctCardinality(p.rejected);
    SetAsideCount(nodes);
    assert |p.planned| == |p.planned.Keys| && |nodes| == |nodes.Keys|;
  }
}
