/** What an evaluation decides, stated on the items alone: which status, provenance and action every
    node gets, when the evaluation fails and with which error. */
module HierarchyCompletionMeaning {
  import opened Base
  import opened Forest
  import opened Indexing
  import opened HierarchyStatus
  import opened HierarchyCompletion
  import opened HierarchyCompletionLaws
  import opened HierarchyCompletionRuns

  // ---- Occurrence proof ----

  /** Some ancestor of `x`, or `x` itself, recurs, and the scope does not name an occurrence of it. */
  ghost predicate LacksProof(nodes: Items, scope: Scope, x: Id) {
    exists a :: a in nodes && Below(ParentMap(nodes), x, a) && nodes[a].recurs && !(scope.Occurrence? && scope.rootId == a)
  }

  lemma UnprovenIff(nodes: Items, scope: Scope, x: Id)
    requires ScopeRoot(nodes, scope).Ok? && x in nodes
    ensures Unproven(nodes, ScopeRoot(nodes, scope).value, x) <==> LacksProof(nodes, scope, x)
  {
    var f, flagged := ParentMap(nodes), Unqualified(nodes, ScopeRoot(nodes, scope).value);
    if LacksProof(nodes, scope, x) {
      var a :| a in nodes && Below(f, x, a) && nodes[a].recurs && !(scope.Occurrence? && scope.rootId == a);
      assert a in flagged;
    }
    if Inherits(f, flagged, x) {
      var a :| a in flagged && Below(f, x, a);
      assert nodes[a].recurs;
    }
  }

  /** An occurrence scope is accepted exactly when both ids are given and the named item recurs and
      is the root of the whole forest. */
  lemma ScopeAcceptedIff(nodes: Items, rootId: Id, occurrenceId: Id)
    requires Closed(ParentMap(nodes)) && Acyclic(ParentMap(nodes))
    ensures ScopeRoot(nodes, Occurrence(rootId, occurrenceId)).Ok? <==>
      rootId != NIL && occurrenceId != NIL && rootId in nodes && nodes[rootId].recurs && IsTree(ParentMap(nodes), rootId)
    ensures ScopeRoot(nodes, Occurrence(rootId, occurrenceId)).Err? ==>
      ScopeRoot(nodes, Occurrence(rootId, occurrenceId)).error ==
        if rootId == NIL || occurrenceId == NIL then InvalidId else InvalidOccurrenceScope
    ensures ScopeRoot(nodes, OneOff).Ok?
  {
    var f := ParentMap(nodes);
    if rootId in nodes && nodes[rootId].parent.None? {
      TreeIff(f, rootId);
      if OnlyRoot(f, rootId) {
        forall x | x in nodes && nodes[x].parent == None ensures x == rootId {
          assert f[x].None?;
        }
      } else {
        var x :| x in f && f[x].None? && x != rootId;
        assert nodes[x].parent == None;
      }
    }
  }

  // ---- One item ----

  /** `open` is the status the item returns to: its own while it is open, else the one retained when
      it was completed. */
  predicate ReturnsTo(item: Item, open: Status) {
    || (item.provenance.None? && item.status == open && open !in {Completed, Skipped, Cancelled})
    || (item.provenance.Some? && item.provenance.value.prior == open)
  }

  /** A terminal status that nothing says how to reopen. */
  predicate Stranded(item: Item) {
    item.provenance.None? && item.status in {Completed, Skipped, Cancelled}
  }

  lemma ReturnsOrStranded(item: Item)
    ensures Stranded(item) <==> Retained(item).None?
    ensures Retained(item).Some? ==> ReturnsTo(item, Retained(item).value)
    ensures forall open :: ReturnsTo(item, open) ==> Retained(item) == Some(open)
  {
  }

  /** How a change from the item to its decision is named. */
  predicate ActionFits(item: Item, d: Decision) {
    if d.status == item.status && d.provenance == item.provenance then d.action.Unchanged?
    else match item.manualOverride
      case KeepOpen => d.action.ManuallyKeptOpen?
      case Complete => d.action.ManuallyCompleted?
      case Automatic =>
        if d.status.Completed? then d.action.AutomaticallyCompleted?
        else if item.provenance == Some(AutomaticCompletion(d.status)) then d.action.AutomaticallyReopened?
        else d.action.ManualCompletionReleased? && item.provenance == Some(ManualCompletion(d.status))
  }

  /** The outcome for a proven item; `ready` says that its required descendants are all completed. */
  predicate OutcomeFits(item: Item, ready: bool, d: Decision) {
    match item.manualOverride
    case KeepOpen => ReturnsTo(item, d.status) && d.provenance.None?
    case Complete => d.status.Completed? && d.provenance.Some? && d.provenance.value.ManualCompletion? && ReturnsTo(item, d.provenance.value.prior)
    case Automatic =>
      if ready then d.status.Completed? && d.provenance.Some? && d.provenance.value.AutomaticCompletion? && ReturnsTo(item, d.provenance.value.prior)
      else d.provenance.None? && if Stranded(item) then d.status == item.status else ReturnsTo(item, d.status)
  }

  lemma ProvenItem(item: Item, counts: Counts, hasChildren: bool)
    requires ValidProvenance(item) && Decide(item, counts, false, hasChildren).Ok?
    requires counts.required > 0 ==> hasChildren
    ensures var d := Decide(item, counts, false, hasChildren).value;
      && OutcomeFits(item, ReadinessOf(counts, false).AllRequiredDescendantsCompleted?, d) && ActionFits(item, d)
      && d.readiness == ReadinessOf(counts, false) && !d.evidenceRequired
  {
    ReturnsOrStranded(item);
  }

  lemma UnprovenItem(item: Item, counts: Counts, hasChildren: bool)
    ensures Decide(item, counts, true, hasChildren) ==
      Ok(Decision(item.status, item.provenance, OccurrenceEvidenceRequired, EvidenceMissing, counts, true))
  {
  }

  // ---- Readiness ----

  /** Readiness read off the required descendants. */
  ghost predicate ReadinessFits(readiness: Readiness, s: set<Id>, decisions: map<Id, Decision>, unproven: bool)
    requires s <= decisions.Keys
  {
    match readiness
    case EvidenceMissing => unproven || exists d :: d in s && decisions[d].evidenceRequired
    case NoRequiredDescendants => !unproven && s == {}
    case RequiredDescendantsIncomplete =>
      !unproven && (forall d :: d in s ==> !decisions[d].evidenceRequired) && exists d :: d in s && !decisions[d].status.Completed?
    case AllRequiredDescendantsCompleted =>
      !unproven && s != {} && forall d :: d in s ==> !decisions[d].evidenceRequired && decisions[d].status.Completed?
  }

  lemma EmptyCategory(s: set<Id>, decisions: map<Id, Decision>, c: Category)
    requires s <= decisions.Keys
    ensures |InCategory(s, decisions, c)| == 0 <==> forall d :: d in s ==> CategoryOf(decisions[d]) != c
  {
    if exists d :: d in s && CategoryOf(decisions[d]) == c {
      var d :| d in s && CategoryOf(decisions[d]) == c;
      assert d in InCategory(s, decisions, c);
    } else {
      assert InCategory(s, decisions, c) == {};
    }
  }

  lemma CategoryMeans(d: Decision)
    ensures CategoryOf(d).NoEvidence? <==> d.evidenceRequired
    ensures CategoryOf(d).Unmet? <==> !d.evidenceRequired && !d.status.Completed?
    ensures CategoryOf(d).Done? <==> !d.evidenceRequired && d.status.Completed?
  {
  }

  lemma ReadinessMeans(s: set<Id>, decisions: map<Id, Decision>, unproven: bool)
    requires s <= decisions.Keys
    ensures ReadinessFits(ReadinessOf(Tally(s, decisions), unproven), s, decisions, unproven)
  {
    EmptyCategory(s, decisions, NoEvidence);
    EmptyCategory(s, decisions, Unmet);
    forall d | d in s ensures CategoryOf(decisions[d]).NoEvidence? <==> decisions[d].evidenceRequired {
      CategoryMeans(decisions[d]);
    }
    forall d | d in s ensures CategoryOf(decisions[d]).Unmet? <==> !decisions[d].evidenceRequired && !decisions[d].status.Completed? {
      CategoryMeans(decisions[d]);
    }
  }

  // ---- Every node of a successful evaluation ----

  lemma RequiredChild(nodes: Items, x: Id)
    requires RequiredDescendants(nodes, x) != {}
    ensures HasChildren(nodes, x)
  {
    var g := RequiredMap(nodes);
    var d :| d in RequiredDescendants(nodes, x);
    var k: nat :| k >= 1 && Up(g, d, k) == Some(x);
    UpPrefix(g, d, k - 1, k);
    var c := Up(g, d, k - 1).value;
    UpAdd(g, d, k - 1, 1);
    assert Up(g, c, 1) == Some(x);
    assert c in Children(ParentMap(nodes), x);
  }

  /** The decision about `x` among the decisions about all nodes. */
  ghost predicate NodeFits(nodes: Items, scope: Scope, decisions: map<Id, Decision>, x: Id)
    requires x in nodes && x in decisions && RequiredDescendants(nodes, x) <= decisions.Keys
  {
    var item, d, s := nodes[x], decisions[x], RequiredDescendants(nodes, x);
    && ReadinessFits(d.readiness, s, decisions, LacksProof(nodes, scope, x))
    && (d.evidenceRequired <==> LacksProof(nodes, scope, x))
    && if LacksProof(nodes, scope, x) then
         d.status == item.status && d.provenance == item.provenance && d.action.OccurrenceEvidenceRequired?
       else
         && OutcomeFits(item, d.readiness.AllRequiredDescendantsCompleted?, d)
         && ActionFits(item, d)
  }

  lemma DecidedFits(nodes: Items, scope: Scope, decisions: map<Id, Decision>, x: Id)
    requires ScopeRoot(nodes, scope).Ok? && x in nodes && x in decisions && RequiredDescendants(nodes, x) <= decisions.Keys
    requires ValidProvenance(nodes[x]) && DecidedAt(nodes, ScopeRoot(nodes, scope).value, decisions, x)
    ensures NodeFits(nodes, scope, decisions, x)
  {
    var root, s := ScopeRoot(nodes, scope).value, RequiredDescendants(nodes, x);
    var counts := Tally(s, decisions);
    UnprovenIff(nodes, scope, x);
    ReadinessMeans(s, decisions, Unproven(nodes, root, x));
    if Unproven(nodes, root, x) {
      UnprovenItem(nodes[x], counts, HasChildren(nodes, x));
    } else {
      if s != {} {
        RequiredChild(nodes, x);
      }
      ProvenItem(nodes[x], counts, HasChildren(nodes, x));
    }
  }

  /** Every node of a successful evaluation: an unproven one is left alone; KeepOpen gives the open
      status it returns to; Complete and a ready automatic parent give Completed with that status
      retained; any other automatic node is open again. The action names the change. */
  lemma EvaluationMeaning(items: seq<Item>, scope: Scope, x: Id)
    requires Evaluation(items, scope).Ok? && x in ById(items)
    ensures var nodes := ById(items); var decisions := Evaluation(items, scope).value;
      x in decisions && RequiredDescendants(nodes, x) <= decisions.Keys && NodeFits(nodes, scope, decisions, x)
  {
    EvaluationConsistent(items, scope);
    var nodes := ById(items);
    var decisions := Evaluation(items, scope).value;
    assert DecidedAt(nodes, ScopeRoot(nodes, scope).value, decisions, x);
    IndexedProvenance(items, x);
    DecidedFits(nodes, scope, decisions, x);
  }

  // ---- When an evaluation fails ----

  /** Why no decision about a node is possible: it is proven and stranded, and either an override
      needs the open status it lacks, or it is an automatic parent. */
  ghost function Obstacle(nodes: Items, scope: Scope, x: Id): Option<Error>
    requires x in nodes
  {
    if LacksProof(nodes, scope, x) || !Stranded(nodes[x]) then None
    else if !nodes[x].manualOverride.Automatic? then Some(MissingPriorOpenStatus(x))
    else if HasChildren(nodes, x) then Some(AmbiguousTerminalParent(x))
    else None
  }

  lemma DecideFails(item: Item, counts: Counts, evidenceRequired: bool, hasChildren: bool)
    ensures var d := Decide(item, counts, evidenceRequired, hasChildren);
      && (d.Err? <==> !evidenceRequired && Stranded(item) && (!item.manualOverride.Automatic? || hasChildren))
      && (d.Err? ==> d.error == if item.manualOverride.Automatic? then AmbiguousTerminalParent(item.id) else MissingPriorOpenStatus(item.id))
  {
    ReturnsOrStranded(item);
  }

  lemma StepFails(nodes: Items, scope: Scope, decisions: map<Id, Decision>, x: Id)
    requires ScopeRoot(nodes, scope).Ok? && x in nodes && nodes[x].id == x && |nodes| <= I64_MAX
    ensures var step := StepFor(nodes, ScopeRoot(nodes, scope).value)(decisions, x);
      && (step.Err? <==> Obstacle(nodes, scope, x).Some?)
      && (step.Err? ==> Some(step.error) == Obstacle(nodes, scope, x))
  {
    var root := ScopeRoot(nodes, scope).value;
    UnprovenIff(nodes, scope, x);
    FewNodesNeverOverflow(nodes, decisions.Keys, x);
    DecideFails(nodes[x], Tally(RequiredDescendants(nodes, x), decisions), Unproven(nodes, root, x), HasChildren(nodes, x));
    assert StepFor(nodes, root)(decisions, x) == DecideOne(nodes, root, decisions, x);
  }

  /** The first node of the order that has an obstacle. */
  ghost predicate FirstObstacle(nodes: Items, scope: Scope, order: seq<Id>, i: nat) {
    && i < |order| && order[i] in nodes && Obstacle(nodes, scope, order[i]).Some?
    && forall j :: 0 <= j < i && order[j] in nodes ==> Obstacle(nodes, scope, order[j]).None?
  }

  lemma StepSucceeded(step: Step, order: seq<Id>, i: nat, j: nat) returns (earlier: map<Id, Decision>)
    requires j < i <= |order| && DecideAll(step, order, i).Ok?
    ensures step(earlier, order[j]).Ok?
  {
    DecideAllSticks(step, order, j, i);
    DecideAllSticks(step, order, j + 1, i);
    earlier := DecideAll(step, order, j).value;
  }

  lemma ErrorIsObstacle(nodes: Items, scope: Scope, order: seq<Id>) returns (i: nat)
    requires ScopeRoot(nodes, scope).Ok? && |nodes| <= I64_MAX && Elements(order) == nodes.Keys
    requires forall x :: x in nodes ==> nodes[x].id == x
    requires DecideAll(StepFor(nodes, ScopeRoot(nodes, scope).value), order, |order|).Err?
    ensures FirstObstacle(nodes, scope, order, i)
    ensures Obstacle(nodes, scope, order[i]) == Some(DecideAll(StepFor(nodes, ScopeRoot(nodes, scope).value), order, |order|).error)
  {
    var step := StepFor(nodes, ScopeRoot(nodes, scope).value);
    i := FirstError(step, order, |order|);
    assert order[i] in Elements(order);
    StepFails(nodes, scope, DecideAll(step, order, i).value, order[i]);
    forall j | 0 <= j < i && order[j] in nodes ensures Obstacle(nodes, scope, order[j]).None? {
      var earlier := StepSucceeded(step, order, i, j);
      StepFails(nodes, scope, earlier, order[j]);
    }
  }

  /** An evaluation of sound items under an accepted scope fails exactly when some node has an
      obstacle, and then with the obstacle of the first one in the order of the evaluation. */
  lemma EvaluationFailsIff(items: seq<Item>, scope: Scope)
    requires Admitted(items) && ScopeRoot(ById(items), scope).Ok? && |items| <= I64_MAX
    ensures var nodes := ById(items); var order := LeastFirst(ParentMap(nodes), |nodes|);
      && (Evaluation(items, scope).Err? <==> exists x :: x in nodes && Obstacle(nodes, scope, x).Some?)
      && (Evaluation(items, scope).Err? ==>
            exists i: nat {:trigger FirstObstacle(nodes, scope, order, i)} ::
              FirstObstacle(nodes, scope, order, i) && Obstacle(nodes, scope, order[i]) == Some(Evaluation(items, scope).error))
  {
    var nodes := ById(items);
    var order := LeastFirst(ParentMap(nodes), |nodes|);
    AdmittedSettled(items);
    IndexSize(items, IdOf);
    forall x | x in nodes ensures nodes[x].id == x {
      var i := IndexOrigin(items, IdOf, x);
    }
    if Evaluation(items, scope).Err? {
      var i := ErrorIsObstacle(nodes, scope, order);
      assert FirstObstacle(nodes, scope, order, i);
    } else {
      EvaluationConsistent(items, scope);
      forall x | x in nodes ensures Obstacle(nodes, scope, x).None? {
        NoObstacle(nodes, scope, Evaluation(items, scope).value, x);
      }
    }
  }

  lemma NoObstacle(nodes: Items, scope: Scope, decisions: map<Id, Decision>, x: Id)
    requires ScopeRoot(nodes, scope).Ok? && x in nodes && nodes[x].id == x && decisions.Keys == nodes.Keys
    requires Consistent(nodes, ScopeRoot(nodes, scope).value, decisions)
    ensures Obstacle(nodes, scope, x).None?
  {
    var root := ScopeRoot(nodes, scope).value;
    assert DecidedAt(nodes, root, decisions, x);
    UnprovenIff(nodes, scope, x);
    DecideFails(nodes[x], Tally(RequiredDescendants(nodes, x), decisions), Unproven(nodes, root, x), HasChildren(nodes, x));
  }
}
