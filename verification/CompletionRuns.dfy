/** Repeated evaluation: writing decisions back is a fixed point, and whatever else changes
    in between, a node keeps the open status it would return to. */
module HierarchyCompletionRuns {
  import opened Base
  import opened Forest
  import opened Indexing
  import opened HierarchyStatus
  import opened HierarchyCompletion
  import opened HierarchyCompletionLaws

  // ---- Writing decisions back ----

  function Applied(item: Item, d: Decision): Item {
    item.(status := d.status, provenance := d.provenance)
  }

  /** The caller's write-back of one evaluation. */
  function WriteBack(items: seq<Item>, decisions: map<Id, Decision>): (after: seq<Item>)
    ensures |after| == |items|
    ensures forall i :: 0 <= i < |items| ==> after[i] == Rewritten(items[i], decisions)
  {
    seq(|items|, i requires 0 <= i < |items| => Rewritten(items[i], decisions))
  }

  function Rewritten(item: Item, decisions: map<Id, Decision>): Item {
    if item.id in decisions then Applied(item, decisions[item.id]) else item
  }

  /** What a decision becomes when it is asked for again: the same, with nothing left to do. */
  function Quiet(d: Decision): Decision {
    d.(action := if d.evidenceRequired then OccurrenceEvidenceRequired else Unchanged)
  }

  function QuietAll(decisions: map<Id, Decision>): map<Id, Decision> {
    map x | x in decisions :: Quiet(decisions[x])
  }

  /** Deciding an already decided item again changes nothing. */
  lemma DecideAgain(item: Item, counts: Counts, evidenceRequired: bool, hasChildren: bool)
    requires ValidProvenance(item)
    ensures var d := Decide(item, counts, evidenceRequired, hasChildren);
      d.Ok? ==>
        && ValidProvenance(Applied(item, d.value))
        && Decide(Applied(item, d.value), counts, evidenceRequired, hasChildren) == Ok(Quiet(d.value))
  {
  }

  function Written(nodes: Items, decisions: map<Id, Decision>): Items {
    map x | x in nodes :: if x in decisions then Applied(nodes[x], decisions[x]) else nodes[x]
  }

  lemma WrittenUpdate(nodes: Items, decisions: map<Id, Decision>, item: Item)
    ensures Written(nodes[item.id := item], decisions) == Written(nodes, decisions)[item.id := Rewritten(item, decisions)]
  {
  }

  lemma {:induction false} WriteBackNodes(items: seq<Item>, decisions: map<Id, Decision>)
    ensures ById(WriteBack(items, decisions)) == Written(ById(items), decisions)
  {
    if items == [] {
    } else {
      var n := |items| - 1;
      assert WriteBack(items, decisions)[..n] == WriteBack(items[..n], decisions);
      WriteBackNodes(items[..n], decisions);
      WrittenUpdate(ById(items[..n]), decisions, items[n]);
    }
  }

  /** Writing back changes neither topology, nor proof, nor scope. */
  lemma WrittenStructure(nodes: Items, decisions: map<Id, Decision>)
    ensures ParentMap(Written(nodes, decisions)) == ParentMap(nodes)
    ensures RequiredMap(Written(nodes, decisions)) == RequiredMap(nodes)
  {
  }

  lemma WrittenProof(nodes: Items, decisions: map<Id, Decision>, root: Option<Id>, x: Id)
    ensures Unproven(Written(nodes, decisions), root, x) <==> Unproven(nodes, root, x)
  {
    WrittenStructure(nodes, decisions);
    assert Unqualified(Written(nodes, decisions), root) == Unqualified(nodes, root);
  }

  lemma WrittenScope(nodes: Items, decisions: map<Id, Decision>, scope: Scope)
    ensures ScopeRoot(Written(nodes, decisions), scope) == ScopeRoot(nodes, scope)
  {
    var after := Written(nodes, decisions);
    assert forall a :: a in nodes ==> after[a].recurs == nodes[a].recurs && after[a].parent == nodes[a].parent;
  }

  lemma QuietTally(s: set<Id>, decisions: map<Id, Decision>, done: set<Id>)
    ensures Tally(s, Restricted(QuietAll(decisions), done)) == Tally(s, Restricted(decisions, done))
  {
    TallyFrame(s, Restricted(QuietAll(decisions), done), Restricted(decisions, done));
  }

  lemma WrittenStep(nodes: Items, root: Option<Id>, decisions: map<Id, Decision>, done: set<Id>, c: Id)
    requires c in nodes && c in decisions && ValidProvenance(nodes[c])
    requires DecideOne(nodes, root, Restricted(decisions, done), c) == Ok(decisions[c])
    ensures DecideOne(Written(nodes, decisions), root, Restricted(QuietAll(decisions), done), c) == Ok(Quiet(decisions[c]))
  {
    WrittenStructure(nodes, decisions);
    WrittenProof(nodes, decisions, root, c);
    var counts := Tally(RequiredDescendants(nodes, c), Restricted(decisions, done));
    QuietTally(RequiredDescendants(nodes, c), decisions, done);
    DecideAgain(nodes[c], counts, Unproven(nodes, root, c), HasChildren(nodes, c));
    assert Restricted(QuietAll(decisions), done).Keys == Restricted(decisions, done).Keys;
    WrittenOverflows(nodes, decisions, Restricted(decisions, done).Keys, c);
  }

  lemma WrittenOverflows(nodes: Items, decisions: map<Id, Decision>, done: set<Id>, c: Id)
    requires c in nodes
    ensures Overflows(Written(nodes, decisions), done, c) <==> Overflows(nodes, done, c)
  {
    WrittenStructure(nodes, decisions);
    assert Written(nodes, decisions)[c].parent == nodes[c].parent;
  }

  lemma WrittenFollows(nodes: Items, root: Option<Id>, order: seq<Id>, decisions: map<Id, Decision>, i: nat)
    requires i < |order| && order[i] in nodes && ValidProvenance(nodes[order[i]])
    requires Follows(StepFor(nodes, root), order, decisions, i)
    ensures Follows(StepFor(Written(nodes, decisions), root), order, QuietAll(decisions), i)
  {
    var done := Elements(order[..i]);
    var c := order[i];
    assert StepFor(nodes, root)(Restricted(decisions, done), c) == DecideOne(nodes, root, Restricted(decisions, done), c);
    WrittenStep(nodes, root, decisions, done, c);
  }

  lemma WrittenFault(items: seq<Item>, decisions: map<Id, Decision>, i: nat)
    requires i < |items| && ItemFault(items[..i], items[i]).None?
    requires items[i].id in decisions ==> ValidProvenance(Applied(items[i], decisions[items[i].id]))
    ensures var after := WriteBack(items, decisions); ItemFault(after[..i], after[i]).None?
  {
    var after := WriteBack(items, decisions);
    if Has(after[..i], IdOf, items[i].id) {
      var j :| 0 <= j < i && IdOf(after[..i][j]) == items[i].id;
      assert IdOf(items[..i][j]) == items[i].id;
    }
  }

  lemma WrittenIndex(items: seq<Item>, decisions: map<Id, Decision>)
    requires IndexError(items).None?
    requires forall i :: 0 <= i < |items| && items[i].id in decisions ==> ValidProvenance(Applied(items[i], decisions[items[i].id]))
    ensures IndexError(WriteBack(items, decisions)).None?
  {
    var after := WriteBack(items, decisions);
    forall i {:trigger after[i]} | 0 <= i < |after| ensures ItemFault(after[..i], after[i]).None? {
      FaultlessAt(items, i, ItemFault);
      WrittenFault(items, decisions, i);
    }
    FaultlessWhen(after, ItemFault);
  }

  lemma IndexedAt(items: seq<Item>, i: nat)
    requires i < |items| && IndexError(items).None?
    ensures items[i].id in ById(items) && ById(items)[items[i].id] == items[i]
    ensures ValidProvenance(items[i])
  {
    FaultlessDistinguished(items, IdOf, ItemFault);
    IndexAt(items, IdOf, i);
    FaultlessAt(items, i, ItemFault);
  }

  /** Every item is written back with a valid provenance. */
  lemma WrittenProvenance(items: seq<Item>, root: Option<Id>, decisions: map<Id, Decision>, i: nat)
    requires i < |items| && IndexError(items).None?
    requires decisions.Keys == ById(items).Keys && Consistent(ById(items), root, decisions)
    ensures items[i].id in decisions && ValidProvenance(Applied(items[i], decisions[items[i].id]))
  {
    var nodes := ById(items);
    IndexedAt(items, i);
    var x := items[i].id;
    assert DecidedAt(nodes, root, decisions, x);
    DecideAgain(nodes[x], Tally(RequiredDescendants(nodes, x), decisions), Unproven(nodes, root, x), HasChildren(nodes, x));
  }

  lemma WrittenAdmitted(items: seq<Item>, scope: Scope)
    requires Evaluation(items, scope).Ok?
    ensures Admitted(WriteBack(items, Evaluation(items, scope).value))
  {
    EvaluationConsistent(items, scope);
    var decisions := Evaluation(items, scope).value;
    forall i | 0 <= i < |items| ensures items[i].id in decisions && ValidProvenance(Applied(items[i], decisions[items[i].id])) {
      WrittenProvenance(items, ScopeRoot(ById(items), scope).value, decisions, i);
    }
    WrittenIndex(items, decisions);
    WriteBackNodes(items, decisions);
    WrittenStructure(ById(items), decisions);
  }

  /** Two step functions that agree along an order lead to corresponding results. */
  lemma TransferRun(step: Step, step': Step, order: seq<Id>, decisions: map<Id, Decision>, decisions': map<Id, Decision>)
    requires Distinct(order) && DecideAll(step, order, |order|) == Ok(decisions) && decisions'.Keys == Elements(order)
    requires forall i {:trigger Follows(step, order, decisions, i)} ::
      0 <= i < |order| && Follows(step, order, decisions, i) ==> Follows(step', order, decisions', i)
    ensures DecideAll(step', order, |order|) == Ok(decisions')
  {
    DecidesFollows(step, order, |order|);
    forall i | 0 <= i < |order| ensures Follows(step', order, decisions', i) {
      assert Follows(step, order, decisions, i);
    }
    FollowsDecidesAll(step', order, decisions');
  }

  lemma WrittenRun(nodes: Items, root: Option<Id>, order: seq<Id>, decisions: map<Id, Decision>)
    requires Distinct(order) && Elements(order) == nodes.Keys == decisions.Keys
    requires forall x :: x in nodes ==> ValidProvenance(nodes[x])
    requires DecideAll(StepFor(nodes, root), order, |order|) == Ok(decisions)
    ensures DecideAll(StepFor(Written(nodes, decisions), root), order, |order|) == Ok(QuietAll(decisions))
  {
    forall i | 0 <= i < |order| && Follows(StepFor(nodes, root), order, decisions, i)
      ensures Follows(StepFor(Written(nodes, decisions), root), order, QuietAll(decisions), i)
    {
      assert order[i] in Elements(order);
      WrittenFollows(nodes, root, order, decisions, i);
    }
    assert QuietAll(decisions).Keys == decisions.Keys;
    TransferRun(StepFor(nodes, root), StepFor(Written(nodes, decisions), root), order, decisions, QuietAll(decisions));
  }

  /** The evaluation is a fixed point: written back and evaluated again under the same scope, it
      succeeds with every status, provenance, readiness and count unchanged, and no action left
      but the reminder that occurrence evidence is missing. */
  lemma EvaluationFixedPoint(items: seq<Item>, scope: Scope)
    requires Evaluation(items, scope).Ok?
    ensures var decisions := Evaluation(items, scope).value;
      Evaluation(WriteBack(items, decisions), scope) == Ok(QuietAll(decisions))
  {
    var nodes := ById(items);
    var decisions := Evaluation(items, scope).value;
    EvaluationConsistent(items, scope);
    AdmittedSettled(items);
    WrittenAdmitted(items, scope);
    WriteBackNodes(items, decisions);
    assert items[..|items|] == items;
    forall x | x in nodes ensures ValidProvenance(nodes[x]) {
      IndexedProvenance(items, x);
    }
    NodesFixedPoint(nodes, scope, decisions);
  }

  lemma NodesFixedPoint(nodes: Items, scope: Scope, decisions: map<Id, Decision>)
    requires ScopeRoot(nodes, scope).Ok? && EvaluateNodes(nodes, scope) == Ok(decisions) && decisions.Keys == nodes.Keys
    requires forall x :: x in nodes ==> ValidProvenance(nodes[x])
    requires var order := LeastFirst(ParentMap(nodes), |nodes|); Distinct(order) && Elements(order) == nodes.Keys
    ensures EvaluateNodes(Written(nodes, decisions), scope) == Ok(QuietAll(decisions))
  {
    WrittenOrder(nodes, decisions);
    WrittenScope(nodes, decisions, scope);
    WrittenRun(nodes, ScopeRoot(nodes, scope).value, LeastFirst(ParentMap(nodes), |nodes|), decisions);
  }

  lemma WrittenOrder(nodes: Items, decisions: map<Id, Decision>)
    ensures LeastFirst(ParentMap(Written(nodes, decisions)), |Written(nodes, decisions)|) == LeastFirst(ParentMap(nodes), |nodes|)
  {
    WrittenStructure(nodes, decisions);
    assert Written(nodes, decisions).Keys == nodes.Keys;
  }

  // ---- Counts cannot overflow on any slice that fits in memory ----

  lemma {:induction false} FirstError(step: Step, order: seq<Id>, k: nat) returns (i: nat)
    requires k <= |order| && DecideAll(step, order, k).Err?
    ensures i < k && DecideAll(step, order, i).Ok?
    ensures step(DecideAll(step, order, i).value, order[i]) == Err(DecideAll(step, order, k).error)
  {
    if DecideAll(step, order, k - 1).Err? {
      i := FirstError(step, order, k - 1);
    } else {
      i := k - 1;
    }
  }

  lemma DecideNeverOverflows(item: Item, counts: Counts, evidenceRequired: bool, hasChildren: bool, p: Id)
    ensures Decide(item, counts, evidenceRequired, hasChildren) != Err(Overflow(p))
  {
  }

  lemma FewNodesStep(nodes: Items, root: Option<Id>, decisions: map<Id, Decision>, c: Id, p: Id)
    requires c in nodes && |nodes| <= I64_MAX
    ensures StepFor(nodes, root)(decisions, c) != Err(Overflow(p))
  {
    FewNodesNeverOverflow(nodes, decisions.Keys, c);
    DecideNeverOverflows(nodes[c], Tally(RequiredDescendants(nodes, c), decisions), Unproven(nodes, root, c), HasChildren(nodes, c), p);
    assert DecideOne(nodes, root, decisions, c) != Err(Overflow(p));
  }

  lemma IndexNeverOverflows(items: seq<Item>, p: Id)
    ensures IndexError(items) != Some(Overflow(p))
  {
    if IndexError(items).Some? {
      var i := FaultOrigin(items, ItemFault);
    }
  }

  /** `Overflow` needs more than `i64::MAX` items, which no Rust slice holds. */
  lemma OverflowUnreachable(items: seq<Item>, scope: Scope, p: Id)
    requires |items| <= I64_MAX
    ensures Evaluation(items, scope) != Err(Overflow(p))
  {
    IndexNeverOverflows(items, p);
    if Admitted(items) && ScopeRoot(ById(items), scope).Ok? {
      var nodes := ById(items);
      var root := ScopeRoot(nodes, scope).value;
      AdmittedSettled(items);
      IndexSize(items, IdOf);
      var order := LeastFirst(ParentMap(nodes), |nodes|);
      if DecideAll(StepFor(nodes, root), order, |order|).Err? {
        var i := FirstError(StepFor(nodes, root), order, |order|);
        assert order[i] in Elements(order);
        FewNodesStep(nodes, root, DecideAll(StepFor(nodes, root), order, i).value, order[i], p);
      }
    }
  }

  // ---- Runs ----

  /** What may happen to the items between and during evaluations. */
  datatype Event =
    | Evaluate(scope: Scope)
    | SetOverride(id: Id, override: Override)
    | AddItem(item: Item)
    | EditLifecycle(id: Id, status: Status, provenance: Option<Provenance>)

  ghost function After(items: seq<Item>, event: Event): seq<Item> {
    match event
    case Evaluate(scope) =>
      var evaluation := Evaluation(items, scope);
      if evaluation.Ok? then WriteBack(items, evaluation.value) else items
    case SetOverride(id, override) =>
      seq(|items|, i requires 0 <= i < |items| =>
        if items[i].id == id then items[i].(manualOverride := override) else items[i])
    case AddItem(item) => items + [item]
    case EditLifecycle(id, status, provenance) =>
      seq(|items|, i requires 0 <= i < |items| =>
        if items[i].id == id then items[i].(status := status, provenance := provenance) else items[i])
  }

  ghost function Run(items: seq<Item>, events: seq<Event>): seq<Item>
    decreases |events|
  {
    if events == [] then items else Run(After(items, events[0]), events[1..])
  }

  predicate Edits(event: Event, id: Id) {
    event.EditLifecycle? && event.id == id
  }

  /** A decision keeps the retained open status and never records a terminal one on its own. */
  lemma DecideRetains(item: Item, counts: Counts, evidenceRequired: bool, hasChildren: bool)
    requires ValidProvenance(item)
    ensures var d := Decide(item, counts, evidenceRequired, hasChildren);
      d.Ok? ==>
        && Retained(Applied(item, d.value)) == Retained(item)
        && (Retained(item).None? ==> d.value.status == item.status && d.value.provenance.None?)
  {
  }

  ghost predicate SameReturn(before: Item, after: Item) {
    && after.id == before.id
    && ValidProvenance(after)
    && Retained(after) == Retained(before)
    && (Retained(before).None? ==> after.status == before.status && after.provenance.None?)
  }

  lemma EvaluateRetains(items: seq<Item>, scope: Scope, i: nat)
    requires i < |items| && ValidProvenance(items[i])
    ensures |After(items, Evaluate(scope))| == |items|
    ensures SameReturn(items[i], After(items, Evaluate(scope))[i])
  {
    if Evaluation(items, scope).Ok? {
      EvaluationConsistent(items, scope);
      var nodes := ById(items);
      var root := ScopeRoot(nodes, scope).value;
      var decisions := Evaluation(items, scope).value;
      assert items[..|items|] == items;
      IndexedAt(items, i);
      WrittenProvenance(items, root, decisions, i);
      var x := items[i].id;
      assert DecidedAt(nodes, root, decisions, x);
      DecideRetains(nodes[x], Tally(RequiredDescendants(nodes, x), decisions), Unproven(nodes, root, x), HasChildren(nodes, x));
    }
  }

  lemma EventRetains(items: seq<Item>, event: Event, i: nat)
    requires i < |items| && ValidProvenance(items[i]) && !Edits(event, items[i].id)
    ensures |After(items, event)| >= |items| && SameReturn(items[i], After(items, event)[i])
  {
    if event.Evaluate? {
      EvaluateRetains(items, event.scope, i);
    }
  }

  lemma {:induction false} RunRetains(items: seq<Item>, events: seq<Event>, i: nat)
    requires i < |items| && ValidProvenance(items[i])
    requires forall e :: e in events ==> !Edits(e, items[i].id)
    ensures |Run(items, events)| >= |items| && SameReturn(items[i], Run(items, events)[i])
    decreases |events|
  {
    if events != [] {
      assert events[0] in events;
      EventRetains(items, events[0], i);
      assert forall e :: e in events[1..] ==> e in events;
      RunRetains(After(items, events[0]), events[1..], i);
    }
  }

  /** Over any run of evaluations, override changes, additions and lifecycle edits of other items,
      a node that has an open status to return to is always either in exactly that status, or
      Completed with exactly that status retained. */
  lemma RunReturnsToOriginalStatus(items: seq<Item>, events: seq<Event>, i: nat, open: Status)
    requires i < |items| && ValidProvenance(items[i]) && Retained(items[i]) == Some(open)
    requires forall e :: e in events ==> !Edits(e, items[i].id)
    ensures |Run(items, events)| >= |items|
    ensures var now := Run(items, events)[i];
      || (now.status == open && now.provenance.None?)
      || (now.status.Completed? && now.provenance.Some? && now.provenance.value.prior == open)
  {
    RunRetains(items, events, i);
  }
}
