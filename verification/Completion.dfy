/** Completion decisions over a complete forest: a top-down pass marks nodes without
    occurrence proof, a bottom-up pass decides each node from its required descendants. */
module HierarchyCompletion {
  import opened Base
  import opened Forest
  import opened Indexing
  import opened HierarchyStatus

  datatype Override = Automatic | KeepOpen | Complete

  /** Evidence retained with a recorded completion: the open status to return to. */
  datatype Provenance =
    | AutomaticCompletion(prior: Status)
    | ManualCompletion(prior: Status)

  datatype Scope = OneOff | Occurrence(rootId: Id, occurrenceId: Id)

  datatype Item = Item(
    id: Id,
    parent: Option<Id>,
    status: Status,
    requiredForParent: bool,
    recurs: bool,
    hasChildrenOutsidePlan: bool,
    manualOverride: Override,
    provenance: Option<Provenance>)

  datatype Readiness =
    | NoRequiredDescendants
    | RequiredDescendantsIncomplete
    | EvidenceMissing
    | AllRequiredDescendantsCompleted

  datatype Action =
    | Unchanged
    | OccurrenceEvidenceRequired
    | AutomaticallyCompleted
    | AutomaticallyReopened
    | ManuallyCompleted
    | ManuallyKeptOpen
    | ManualCompletionReleased

  datatype Counts = Counts(required: nat, completed: nat, incomplete: nat, evidence: nat)

  datatype Decision = Decision(
    status: Status,
    provenance: Option<Provenance>,
    action: Action,
    readiness: Readiness,
    counts: Counts,
    evidenceRequired: bool)

  datatype Error =
    | InvalidId
    | DuplicateItem(id: Id)
    | Topology(topology: TopologyError)
    | IncompleteTopology(id: Id)
    | InvalidProvenance(id: Id)
    | MissingPriorOpenStatus(id: Id)
    | AmbiguousTerminalParent(id: Id)
    | InvalidOccurrenceScope
    | Overflow(id: Id)

  type Items = map<Id, Item>

  // ---- Indexing ----

  predicate ValidProvenance(item: Item) {
    item.provenance.Some? ==> item.status.Completed? && item.provenance.value.prior.Open()
  }

  function IdOf(item: Item): Id {
    item.id
  }

  /** The first complaint about an item, given the items before it. */
  ghost function ItemFault(earlier: seq<Item>, item: Item): Option<Error> {
    if item.id == NIL || item.parent == Some(NIL) then Some(InvalidId)
    else if Has(earlier, IdOf, item.id) then Some(DuplicateItem(item.id))
    else if item.hasChildrenOutsidePlan then Some(IncompleteTopology(item.id))
    else if !ValidProvenance(item) then Some(InvalidProvenance(item.id))
    else None
  }

  /** The complaint about the earliest offending item. */
  ghost function IndexError(items: seq<Item>): Option<Error> {
    FirstFault(items, ItemFault)
  }

  function ById(items: seq<Item>): Items {
    Index(items, IdOf)
  }

  method IndexItems(items: seq<Item>) returns (r: Result<Items, Error>)
    ensures r == if IndexError(items).Some? then Err(IndexError(items).value) else Ok(ById(items))
  {
    var nodes: Items := map[];
    for i := 0 to |items|
      invariant IndexError(items[..i]) == None
      invariant nodes == ById(items[..i])
    {
      var item := items[i];
      IndexNext(items, i, IdOf, ItemFault);
      if item.id == NIL || item.parent == Some(NIL) {
        return Err(InvalidId);
      }
      if item.id in nodes {
        return Err(DuplicateItem(item.id));
      }
      nodes := nodes[item.id := item];
      if item.hasChildrenOutsidePlan {
        return Err(IncompleteTopology(item.id));
      }
      if item.provenance.Some? && (!item.status.Completed? || !item.provenance.value.prior.Open()) {
        return Err(InvalidProvenance(item.id));
      }
    }
    assert items[..|items|] == items;
    r := Ok(nodes);
  }

  // ---- Topology, proof and scope ----

  function ParentMap(nodes: Items): Parents {
    map x | x in nodes :: nodes[x].parent
  }

  /** The forest with every optional edge cut: its descendants are the required ones. */
  function RequiredMap(nodes: Items): Parents {
    map x | x in nodes :: if nodes[x].requiredForParent then nodes[x].parent else None
  }

  ghost function RequiredDescendants(nodes: Items, x: Id): set<Id> {
    Descendants(RequiredMap(nodes), x)
  }

  ghost predicate HasChildren(nodes: Items, x: Id) {
    Children(ParentMap(nodes), x) != {}
  }

  /** Nodes that recur without being the qualified root. */
  function Unqualified(nodes: Items, root: Option<Id>): set<Id> {
    set a | a in nodes && nodes[a].recurs && root != Some(a)
  }

  /** Some node on the ancestor chain of `x`, itself included, recurs without being the qualified root. */
  ghost predicate Unproven(nodes: Items, root: Option<Id>, x: Id) {
    Inherits(ParentMap(nodes), Unqualified(nodes, root), x)
  }

  function ScopeRoot(nodes: Items, scope: Scope): Result<Option<Id>, Error> {
    match scope
    case OneOff => Ok(None)
    case Occurrence(rootId, occurrenceId) =>
      if rootId == NIL || occurrenceId == NIL then Err(InvalidId)
      else if rootId !in nodes || !nodes[rootId].recurs || nodes[rootId].parent.Some? then Err(InvalidOccurrenceScope)
      else if exists x :: x in nodes && nodes[x].parent == None && x != rootId then Err(InvalidOccurrenceScope)
      else Ok(Some(rootId))
  }

  // ---- One decision ----

  function ReadinessOf(counts: Counts, evidenceRequired: bool): Readiness {
    if evidenceRequired || counts.evidence != 0 then EvidenceMissing
    else if counts.required == 0 then NoRequiredDescendants
    else if counts.incomplete != 0 then RequiredDescendantsIncomplete
    else AllRequiredDescendantsCompleted
  }

  /** The open status an item would return to: its retained evidence, or its own open status. */
  function Retained(item: Item): Option<Status> {
    if item.provenance.Some? then Some(item.provenance.value.prior)
    else if item.status.Open() then Some(item.status)
    else None
  }

  function Decide(item: Item, counts: Counts, evidenceRequired: bool, hasChildren: bool): Result<Decision, Error> {
    var readiness := ReadinessOf(counts, evidenceRequired);
    var prior := Retained(item);
    var kept := Decision(item.status, item.provenance, Unchanged, readiness, counts, evidenceRequired);
    if evidenceRequired then
      Ok(kept.(action := OccurrenceEvidenceRequired))
    else if hasChildren && !item.status.Open() && item.provenance.None? && item.manualOverride.Automatic? then
      Err(AmbiguousTerminalParent(item.id))
    else
      match item.manualOverride
      case Automatic =>
        if readiness.AllRequiredDescendantsCompleted? then
          if prior.None? then Ok(kept)
          else
            var provenance := Some(AutomaticCompletion(prior.value));
            var changed := !item.status.Completed? || item.provenance != provenance;
            Ok(kept.(status := Completed, provenance := provenance,
                     action := if changed then AutomaticallyCompleted else Unchanged))
        else if item.provenance.Some? then
          Ok(kept.(status := item.provenance.value.prior, provenance := None,
                   action := if item.provenance.value.AutomaticCompletion? then AutomaticallyReopened
                             else ManualCompletionReleased))
        else Ok(kept)
      case KeepOpen =>
        if prior.None? then Err(MissingPriorOpenStatus(item.id))
        else
          var changed := prior.value != item.status || item.provenance.Some?;
          Ok(kept.(status := prior.value, provenance := None,
                   action := if changed then ManuallyKeptOpen else Unchanged))
      case Complete =>
        if prior.None? then Err(MissingPriorOpenStatus(item.id))
        else
          var provenance := Some(ManualCompletion(prior.value));
          var changed := !item.status.Completed? || item.provenance != provenance;
          Ok(kept.(status := Completed, provenance := provenance,
                   action := if changed then ManuallyCompleted else Unchanged))
  }

  // ---- Counting ----

  datatype Category = Done | Unmet | NoEvidence

  function CategoryOf(d: Decision): Category {
    if d.evidenceRequired then NoEvidence
    else if d.status.Completed? then Done
    else Unmet
  }

  ghost function InCategory(s: set<Id>, decisions: map<Id, Decision>, c: Category): set<Id> {
    set d | d in s && d in decisions && CategoryOf(decisions[d]) == c
  }

  /** The declarative counts: how many members of `s` there are, and how many in each category. */
  ghost function Tally(s: set<Id>, decisions: map<Id, Decision>): Counts {
    Counts(|s|,
           |InCategory(s, decisions, Done)|,
           |InCategory(s, decisions, Unmet)|,
           |InCategory(s, decisions, NoEvidence)|)
  }

  function CheckedAdd(a: nat, b: nat): Option<nat> {
    if a + b <= U64_MAX then Some(a + b) else None
  }

  /** `HierarchyCompletionCounts::add_branch`: the child and everything it counted join the parent. */
  function AddBranch(counts: Counts, child: Decision): Option<Counts> {
    var branch := child.counts;
    var c := CategoryOf(child);
    var required1 := CheckedAdd(branch.required, 1);
    var completed1 := CheckedAdd(branch.completed, if c.Done? then 1 else 0);
    var incomplete1 := CheckedAdd(branch.incomplete, if c.Unmet? then 1 else 0);
    var evidence1 := CheckedAdd(branch.evidence, if c.NoEvidence? then 1 else 0);
    if required1.None? || completed1.None? || incomplete1.None? || evidence1.None? then None
    else
      var required := CheckedAdd(counts.required, required1.value);
      var completed := CheckedAdd(counts.completed, completed1.value);
      var incomplete := CheckedAdd(counts.incomplete, incomplete1.value);
      var evidence := CheckedAdd(counts.evidence, evidence1.value);
      if required.None? || completed.None? || incomplete.None? || evidence.None? then None
      else if required.value > I64_MAX then None
      else Some(Counts(required.value, completed.value, incomplete.value, evidence.value))
  }

  function PlusCounts(a: Counts, b: Counts): Counts {
    Counts(a.required + b.required, a.completed + b.completed, a.incomplete + b.incomplete, a.evidence + b.evidence)
  }

  lemma InCategoryUnion(a: set<Id>, b: set<Id>, decisions: map<Id, Decision>, c: Category)
    requires a !! b
    ensures |InCategory(a + b, decisions, c)| == |InCategory(a, decisions, c)| + |InCategory(b, decisions, c)|
  {
    assert InCategory(a + b, decisions, c) == InCategory(a, decisions, c) + InCategory(b, decisions, c);
    UnionCardinality(InCategory(a, decisions, c), InCategory(b, decisions, c));
  }

  lemma TallyUnion(a: set<Id>, b: set<Id>, decisions: map<Id, Decision>)
    requires a !! b
    ensures Tally(a + b, decisions) == PlusCounts(Tally(a, decisions), Tally(b, decisions))
  {
    UnionCardinality(a, b);
    InCategoryUnion(a, b, decisions, Done);
    InCategoryUnion(a, b, decisions, Unmet);
    InCategoryUnion(a, b, decisions, NoEvidence);
  }

  lemma TallyFrame(s: set<Id>, before: map<Id, Decision>, after: map<Id, Decision>)
    requires forall d :: d in s ==> (d in before <==> d in after) && (d in before ==> CategoryOf(before[d]) == CategoryOf(after[d]))
    ensures Tally(s, before) == Tally(s, after)
  {
    assert InCategory(s, before, Done) == InCategory(s, after, Done);
    assert InCategory(s, before, Unmet) == InCategory(s, after, Unmet);
    assert InCategory(s, before, NoEvidence) == InCategory(s, after, NoEvidence);
  }

  lemma TallySingleton(x: Id, decisions: map<Id, Decision>)
    requires x in decisions
    ensures var c := CategoryOf(decisions[x]);
      Tally({x}, decisions) == Counts(1, if c.Done? then 1 else 0, if c.Unmet? then 1 else 0, if c.NoEvidence? then 1 else 0)
  {
    var c := CategoryOf(decisions[x]);
    assert InCategory({x}, decisions, Done) == if c.Done? then {x} else {};
    assert InCategory({x}, decisions, Unmet) == if c.Unmet? then {x} else {};
    assert InCategory({x}, decisions, NoEvidence) == if c.NoEvidence? then {x} else {};
  }

  /** The three categories partition the total once every member is decided. */
  lemma TallyPartition(s: set<Id>, decisions: map<Id, Decision>)
    requires s <= decisions.Keys
    ensures var t := Tally(s, decisions); t.required == t.completed + t.incomplete + t.evidence
  {
    var done, unmet, unproven := InCategory(s, decisions, Done), InCategory(s, decisions, Unmet), InCategory(s, decisions, NoEvidence);
    assert s == done + unmet + unproven;
    assert |done + unmet| == |done| + |unmet|;
  }

  // ---- The evaluation as a function of the whole forest ----

  /** The decision that the given decisions of the required descendants call for. */
  ghost function DecisionFor(nodes: Items, root: Option<Id>, decisions: map<Id, Decision>, x: Id): Result<Decision, Error>
    requires x in nodes
  {
    Decide(nodes[x], Tally(RequiredDescendants(nodes, x), decisions), Unproven(nodes, root, x), HasChildren(nodes, x))
  }

  /** Finishing `c` after `done` would count more than `i64::MAX` descendants for its parent. */
  ghost predicate Overflows(nodes: Items, done: set<Id>, c: Id)
    requires c in nodes
  {
    nodes[c].requiredForParent && nodes[c].parent.Some?
    && |Branches(RequiredMap(nodes), done + {c}, nodes[c].parent.value)| > I64_MAX
  }

  /** The decision about `c` once the ids in `decisions` are finished. */
  ghost function DecideOne(nodes: Items, root: Option<Id>, decisions: map<Id, Decision>, c: Id): Result<Decision, Error>
    requires c in nodes
  {
    var decision := DecisionFor(nodes, root, decisions, c);
    if decision.Ok? && Overflows(nodes, decisions.Keys, c) then Err(Overflow(nodes[c].parent.value)) else decision
  }

  type Step = (map<Id, Decision>, Id) -> Result<Decision, Error>

  ghost function StepFor(nodes: Items, root: Option<Id>): Step {
    (decisions, c) => if c in nodes then DecideOne(nodes, root, decisions, c) else Err(InvalidId)
  }

  /** `step` decides single ids the way the declarative decision does. */
  ghost predicate Decides(step: Step, nodes: Items, root: Option<Id>) {
    forall decisions, c {:trigger DecideOne(nodes, root, decisions, c)} ::
      c in nodes ==> step(decisions, c) == DecideOne(nodes, root, decisions, c)
  }

  /** The decisions about the first `k` ids of `order`, or the first error among them. */
  ghost function DecideAll(step: Step, order: seq<Id>, k: nat): Result<map<Id, Decision>, Error>
    requires k <= |order|
  {
    if k == 0 then Ok(map[])
    else
      var earlier := DecideAll(step, order, k - 1);
      if earlier.Err? then earlier
      else
        var decision := step(earlier.value, order[k - 1]);
        if decision.Err? then Err(decision.error) else Ok(earlier.value[order[k - 1] := decision.value])
  }

  /** Decisions for indexed items whose topology is sound. */
  ghost function EvaluateNodes(nodes: Items, scope: Scope): Result<map<Id, Decision>, Error> {
    var root := ScopeRoot(nodes, scope);
    if root.Err? then Err(root.error)
    else
      var order := LeastFirst(ParentMap(nodes), |nodes|);
      DecideAll(StepFor(nodes, root.value), order, |order|)
  }

  /** What `evaluate_hierarchy_completion` returns: every result is determined here by sets of
      ancestors and descendants, with no accumulators. */
  ghost function Evaluation(items: seq<Item>, scope: Scope): Result<map<Id, Decision>, Error> {
    var bad := IndexError(items);
    if bad.Some? then Err(bad.value)
    else
      var nodes := ById(items);
      var fault := Fault(ParentMap(nodes));
      if fault.Some? then Err(Topology(fault.value)) else EvaluateNodes(nodes, scope)
  }

  // ---- The two passes ----

  /** `done` is a child-first part of the forest whose topology has been accepted. */
  ghost predicate Settled(nodes: Items, done: seq<Id>) {
    && Closed(ParentMap(nodes)) && Acyclic(ParentMap(nodes))
    && FinishedChildrenFirst(ParentMap(nodes), done)
  }

  lemma {:induction false} RequiredUp(nodes: Items, x: Id, k: nat)
    requires Up(RequiredMap(nodes), x, k).Some?
    ensures Up(ParentMap(nodes), x, k) == Up(RequiredMap(nodes), x, k)
    decreases k
  {
    if k > 0 {
      RequiredUp(nodes, RequiredMap(nodes)[x].value, k - 1);
    }
  }

  /** Cutting optional edges keeps the forest closed, acyclic and in order. */
  lemma RequiredSettled(nodes: Items, done: seq<Id>)
    requires Settled(nodes, done)
    ensures Closed(RequiredMap(nodes)) && Acyclic(RequiredMap(nodes))
    ensures FinishedChildrenFirst(RequiredMap(nodes), done)
  {
    var f, g := ParentMap(nodes), RequiredMap(nodes);
    forall x ensures !Orphan(g, x) {
      assert !Orphan(f, x);
    }
    forall x | x in g ensures !OnCycle(g, x) {
      if OnCycle(g, x) {
        var k: nat :| k >= 1 && Up(g, x, k) == Some(x);
        RequiredUp(nodes, x, k);
      }
      assert !OnCycle(f, x);
    }
    forall i, c | 0 <= i < |done| && c in Children(g, done[i]) ensures c in done[..i] {
      assert f[c] == g[c];
      assert c in Children(f, done[i]);
    }
  }

  lemma SettledPrefix(nodes: Items, order: seq<Id>, k: nat)
    requires Settled(nodes, order) && k <= |order|
    ensures Settled(nodes, order[..k])
  {
    var done := order[..k];
    forall i, c | 0 <= i < |done| && c in Children(ParentMap(nodes), done[i]) ensures c in done[..i] {
      assert done[..i] == order[..i] && done[i] == order[i];
    }
    forall x | x in Elements(done) ensures x in nodes {
      assert x in Elements(order);
    }
  }

  /** The accumulated counts of `x` are the declarative tally of its branches finished so far. */
  ghost predicate NodeTally(nodes: Items, done: set<Id>, decisions: map<Id, Decision>, counts: map<Id, Counts>, x: Id)
    requires x in counts
  {
    && counts[x] == Tally(Branches(RequiredMap(nodes), done, x), decisions)
    && |Branches(RequiredMap(nodes), done, x)| <= I64_MAX
  }

  ghost predicate CountsTally(nodes: Items, done: set<Id>, decisions: map<Id, Decision>, counts: map<Id, Counts>) {
    && counts.Keys == nodes.Keys
    && forall x {:trigger NodeTally(nodes, done, decisions, counts, x)} :: x in counts ==> NodeTally(nodes, done, decisions, counts, x)
  }

  lemma CountsTallyStart(nodes: Items, counts: map<Id, Counts>)
    requires counts.Keys == nodes.Keys && forall x :: x in counts ==> counts[x] == Counts(0, 0, 0, 0)
    ensures CountsTally(nodes, {}, map[], counts)
  {
    forall x | x in counts ensures NodeTally(nodes, {}, map[], counts, x) {
      BranchesEmpty(RequiredMap(nodes), x);
      assert InCategory({}, map[], Done) == {} && InCategory({}, map[], Unmet) == {} && InCategory({}, map[], NoEvidence) == {};
    }
  }

  /** A finished child's own counts are its required descendants' tally. */
  lemma FinishedTally(nodes: Items, done: seq<Id>, decisions: map<Id, Decision>, counts: map<Id, Counts>, c: Id)
    requires Settled(nodes, done) && CountsTally(nodes, Elements(done), decisions, counts)
    requires c in nodes && Children(ParentMap(nodes), c) <= Elements(done)
    ensures counts[c] == Tally(RequiredDescendants(nodes, c), decisions)
    ensures Subtree(RequiredMap(nodes), c) == RequiredDescendants(nodes, c) + {c}
    ensures |RequiredDescendants(nodes, c)| <= I64_MAX
  {
    RequiredSettled(nodes, done);
    assert NodeTally(nodes, Elements(done), decisions, counts, c);
    assert Children(RequiredMap(nodes), c) <= Children(ParentMap(nodes), c);
    BranchesComplete(RequiredMap(nodes), Elements(done), c);
  }

  /** Tally of a whole finished branch: the child's own counts plus the child. */
  lemma BranchTally(nodes: Items, decisions: map<Id, Decision>, c: Id, d: Decision)
    requires c !in decisions
    requires RequiredDescendants(nodes, c) <= decisions.Keys
    requires d.counts == Tally(RequiredDescendants(nodes, c), decisions)
    ensures Tally(RequiredDescendants(nodes, c) + {c}, decisions[c := d]) ==
            PlusCounts(d.counts, Tally({c}, decisions[c := d]))
  {
    var s := RequiredDescendants(nodes, c);
    TallyUnion(s, {c}, decisions[c := d]);
    TallyFrame(s, decisions, decisions[c := d]);
  }

  lemma AddBranchTotal(counts: Counts, child: Decision)
    requires counts.required == counts.completed + counts.incomplete + counts.evidence <= I64_MAX
    requires child.counts.required == child.counts.completed + child.counts.incomplete + child.counts.evidence <= I64_MAX
    ensures AddBranch(counts, child).None? <==> counts.required + child.counts.required + 1 > I64_MAX
    ensures AddBranch(counts, child).Some? ==>
      var c := CategoryOf(child);
      AddBranch(counts, child).value ==
      PlusCounts(counts, PlusCounts(child.counts,
        Counts(1, if c.Done? then 1 else 0, if c.Unmet? then 1 else 0, if c.NoEvidence? then 1 else 0)))
  {
  }

  /** Bookkeeping that one finished id `c` with decision `d` calls for at node `x`. */
  ghost predicate CountsStepped(nodes: Items, done: set<Id>, decisions: map<Id, Decision>, counts: map<Id, Counts>, c: Id, d: Decision, x: Id)
    requires c in nodes && x in counts
  {
    var now := Branches(RequiredMap(nodes), done + {c}, x);
    if RequiredMap(nodes)[c] == Some(x) then
      var added := AddBranch(counts[x], d);
      && (added.None? <==> |now| > I64_MAX)
      && (added.Some? ==> added.value == Tally(now, decisions[c := d]))
    else
      Tally(now, decisions[c := d]) == counts[x] && |now| <= I64_MAX
  }

  lemma CountsTallyStep(nodes: Items, done: seq<Id>, decisions: map<Id, Decision>, counts: map<Id, Counts>, c: Id, d: Decision, x: Id)
    requires Settled(nodes, done) && CountsTally(nodes, Elements(done), decisions, counts)
    requires decisions.Keys == Elements(done) && x in nodes
    requires c in nodes && c !in Elements(done) && Children(ParentMap(nodes), c) <= Elements(done)
    requires d.counts == counts[c]
    ensures CountsStepped(nodes, Elements(done), decisions, counts, c, d, x)
  {
    var g := RequiredMap(nodes);
    RequiredSettled(nodes, done);
    assert NodeTally(nodes, Elements(done), decisions, counts, x);
    BranchesWithin(g, done, x);
    BranchesStep(g, Elements(done), c, x);
    var s := Branches(g, Elements(done), x);
    TallyFrame(s, decisions, decisions[c := d]);
    if g[c] == Some(x) {
      FinishedTally(nodes, done, decisions, counts, c);
      BranchesWithin(g, done, c);
      BranchesComplete(g, Elements(done), c);
      BranchTally(nodes, decisions, c, d);
      TallySingleton(c, decisions[c := d]);
      TallyUnion(s, Subtree(g, c), decisions[c := d]);
      TallyPartition(s, decisions);
      TallyPartition(RequiredDescendants(nodes, c), decisions);
      AddBranchTotal(counts[x], d);
    }
  }

  lemma {:induction false} DecideAllSticks(step: Step, order: seq<Id>, k: nat, n: nat)
    requires k <= n <= |order|
    ensures DecideAll(step, order, k).Err? ==> DecideAll(step, order, n) == DecideAll(step, order, k)
  {
    if k < n {
      DecideAllSticks(step, order, k, n - 1);
    }
  }

  /** The counts after `c` has been decided, unless its parent's total overflows. */
  function NextCounts(nodes: Items, counts: map<Id, Counts>, c: Id, d: Decision): Option<map<Id, Counts>>
    requires c in nodes && counts.Keys == nodes.Keys
    requires nodes[c].parent.Some? ==> nodes[c].parent.value in nodes
  {
    var item := nodes[c];
    if item.requiredForParent && item.parent.Some? then
      var added := AddBranch(counts[item.parent.value], d);
      if added.None? then None else Some(counts[item.parent.value := added.value])
    else Some(counts)
  }

  /** `c` may be finished: it is new and all its children are in. */
  ghost predicate Finishable(nodes: Items, done: seq<Id>, decisions: map<Id, Decision>, counts: map<Id, Counts>, c: Id, d: Decision) {
    && Settled(nodes, done) && CountsTally(nodes, Elements(done), decisions, counts)
    && decisions.Keys == Elements(done)
    && c in nodes && c !in Elements(done) && Children(ParentMap(nodes), c) <= Elements(done)
    && d.counts == counts[c]
    && (nodes[c].parent.Some? ==> nodes[c].parent.value in nodes)
  }

  lemma NextCountsOverflow(nodes: Items, done: seq<Id>, decisions: map<Id, Decision>, counts: map<Id, Counts>, c: Id, d: Decision)
    requires Finishable(nodes, done, decisions, counts, c, d)
    ensures NextCounts(nodes, counts, c, d).None? <==> Overflows(nodes, Elements(done), c)
  {
    if nodes[c].requiredForParent && nodes[c].parent.Some? {
      CountsTallyStep(nodes, done, decisions, counts, c, d, nodes[c].parent.value);
    }
  }

  lemma NextCountsAt(nodes: Items, done: seq<Id>, decisions: map<Id, Decision>, counts: map<Id, Counts>, c: Id, d: Decision, x: Id)
    requires Finishable(nodes, done, decisions, counts, c, d)
    requires NextCounts(nodes, counts, c, d).Some? && x in nodes
    ensures x in NextCounts(nodes, counts, c, d).value
    ensures NodeTally(nodes, Elements(done) + {c}, decisions[c := d], NextCounts(nodes, counts, c, d).value, x)
  {
    CountsTallyStep(nodes, done, decisions, counts, c, d, x);
  }

  lemma NextCountsTally(nodes: Items, done: seq<Id>, decisions: map<Id, Decision>, counts: map<Id, Counts>, c: Id, d: Decision)
    requires Finishable(nodes, done, decisions, counts, c, d)
    ensures NextCounts(nodes, counts, c, d).Some? ==>
      CountsTally(nodes, Elements(done) + {c}, decisions[c := d], NextCounts(nodes, counts, c, d).value)
  {
    var next := NextCounts(nodes, counts, c, d);
    if next.Some? {
      forall x | x in next.value ensures NodeTally(nodes, Elements(done) + {c}, decisions[c := d], next.value, x) {
        NextCountsAt(nodes, done, decisions, counts, c, d, x);
      }
    }
  }

  /** The accumulators already hold what the declarative decision asks for. */
  lemma AccumulatedDecision(nodes: Items, root: Option<Id>, done: seq<Id>, c: Id, decisions: map<Id, Decision>,
                            counts: map<Id, Counts>, unproven: bool, isParent: bool)
    requires Settled(nodes, done) && CountsTally(nodes, Elements(done), decisions, counts)
    requires c in nodes && Children(ParentMap(nodes), c) <= Elements(done)
    requires unproven <==> Unproven(nodes, root, c)
    requires isParent <==> HasChildren(nodes, c)
    ensures DecisionFor(nodes, root, decisions, c) == Decide(nodes[c], counts[c], unproven, isParent)
  {
    FinishedTally(nodes, done, decisions, counts, c);
  }

  lemma DecideKeepsCounts(item: Item, counts: Counts, evidenceRequired: bool, hasChildren: bool)
    ensures var d := Decide(item, counts, evidenceRequired, hasChildren);
      d.Ok? ==> d.value.counts == counts && d.value.evidenceRequired == evidenceRequired
  {
  }

  /** Decides the next id of a postorder and hands its counts to its parent. */
  method DecideNext(nodes: Items, ghost root: Option<Id>, ghost step: Step, ghost done: seq<Id>, c: Id, decisions: map<Id, Decision>,
                    counts: map<Id, Counts>, unproven: bool, isParent: bool)
    returns (r: Result<(Decision, map<Id, Counts>), Error>)
    requires Settled(nodes, done) && decisions.Keys == Elements(done)
    requires CountsTally(nodes, Elements(done), decisions, counts)
    requires c in nodes && c !in Elements(done) && Children(ParentMap(nodes), c) <= Elements(done)
    requires unproven <==> Unproven(nodes, root, c)
    requires isParent <==> HasChildren(nodes, c)
    requires Decides(step, nodes, root)
    ensures r.Err? ==> step(decisions, c) == Err(r.error)
    ensures r.Ok? ==>
      && step(decisions, c) == Ok(r.value.0)
      && CountsTally(nodes, Elements(done) + {c}, decisions[c := r.value.0], r.value.1)
  {
    AccumulatedDecision(nodes, root, done, c, decisions, counts, unproven, isParent);
    assert step(decisions, c) == DecideOne(nodes, root, decisions, c);
    var decision := Decide(nodes[c], counts[c], unproven, isParent);
    if decision.Err? {
      return Err(decision.error);
    }
    ParentKnown(nodes, c);
    DecideKeepsCounts(nodes[c], counts[c], unproven, isParent);
    NextCountsOverflow(nodes, done, decisions, counts, c, decision.value);
    NextCountsTally(nodes, done, decisions, counts, c, decision.value);
    var next := NextCounts(nodes, counts, c, decision.value);
    if next.None? {
      return Err(Overflow(nodes[c].parent.value));
    }
    r := Ok((decision.value, next.value));
  }

  lemma ParentKnown(nodes: Items, c: Id)
    requires Closed(ParentMap(nodes)) && c in nodes
    ensures nodes[c].parent.Some? ==> nodes[c].parent.value in nodes
  {
    assert !Orphan(ParentMap(nodes), c);
  }

  /** One iteration of the bottom-up pass. */
  method DecideAt(nodes: Items, ghost root: Option<Id>, ghost step: Step, order: seq<Id>, k: nat, decisions: map<Id, Decision>,
                  counts: map<Id, Counts>, unproven: map<Id, bool>, parents: set<Id>)
    returns (r: Result<(map<Id, Decision>, map<Id, Counts>), Error>)
    requires Settled(nodes, order) && k < |order| && Decides(step, nodes, root)
    requires unproven.Keys == nodes.Keys && AllMarked(ParentMap(nodes), Unqualified(nodes, root), unproven)
    requires forall x {:trigger HasChildren(nodes, x)} :: x in nodes ==> (x in parents <==> HasChildren(nodes, x))
    requires DecideAll(step, order, k) == Ok(decisions) && decisions.Keys == Elements(order[..k])
    requires CountsTally(nodes, decisions.Keys, decisions, counts)
    ensures r.Err? ==> DecideAll(step, order, k + 1) == Err(r.error)
    ensures r.Ok? ==>
      && DecideAll(step, order, k + 1) == Ok(r.value.0) && r.value.0.Keys == Elements(order[..k + 1])
      && CountsTally(nodes, r.value.0.Keys, r.value.0, r.value.1)
  {
    var c := order[k];
    SettledPrefix(nodes, order, k);
    NextIsFinishable(nodes, order, k);
    assert Marked(ParentMap(nodes), Unqualified(nodes, root), unproven, c);
    var next := DecideNext(nodes, root, step, order[..k], c, decisions, counts, unproven[c], c in parents);
    if next.Err? {
      return Err(next.error);
    }
    assert decisions[c := next.value.0].Keys == Elements(order[..k]) + {c};
    r := Ok((decisions[c := next.value.0], next.value.1));
  }

  /** The bottom-up pass over a postorder, with one accumulator of counts per node. */
  method DecideBottomUp(nodes: Items, ghost root: Option<Id>, ghost step: Step, order: seq<Id>, unproven: map<Id, bool>, parents: set<Id>)
    returns (r: Result<map<Id, Decision>, Error>)
    requires Settled(nodes, order) && Decides(step, nodes, root)
    requires unproven.Keys == nodes.Keys && AllMarked(ParentMap(nodes), Unqualified(nodes, root), unproven)
    requires forall x {:trigger HasChildren(nodes, x)} :: x in nodes ==> (x in parents <==> HasChildren(nodes, x))
    ensures r == DecideAll(step, order, |order|)
  {
    var counts: map<Id, Counts> := map x | x in nodes :: Counts(0, 0, 0, 0);
    var decisions: map<Id, Decision> := map[];
    CountsTallyStart(nodes, counts);
    for k := 0 to |order|
      invariant DecideAll(step, order, k) == Ok(decisions) && decisions.Keys == Elements(order[..k])
      invariant CountsTally(nodes, decisions.Keys, decisions, counts)
    {
      var next := DecideAt(nodes, root, step, order, k, decisions, counts, unproven, parents);
      if next.Err? {
        DecideAllSticks(step, order, k + 1, |order|);
        return Err(next.error);
      }
      decisions, counts := next.value.0, next.value.1;
    }
    r := Ok(decisions);
  }

  lemma NextIsFinishable(nodes: Items, order: seq<Id>, k: nat)
    requires Settled(nodes, order) && k < |order|
    ensures order[k] in nodes && order[k] !in Elements(order[..k])
    ensures Children(ParentMap(nodes), order[k]) <= Elements(order[..k])
    ensures Elements(order[..k + 1]) == Elements(order[..k]) + {order[k]}
  {
    assert order[k] in Elements(order);
    TakeNext(order, k);
  }

  /** `evaluate_hierarchy_completion`: index, order, check the scope, then both passes. */
  method EvaluateHierarchyCompletion(items: seq<Item>, scope: Scope) returns (r: Result<map<Id, Decision>, Error>)
    ensures r == Evaluation(items, scope)
  {
    var indexed := IndexItems(items);
    if indexed.Err? {
      return Err(indexed.error);
    }
    var nodes := indexed.value;
    var postorder := Postorder(ParentMap(nodes));
    FaultFree(ParentMap(nodes));
    if postorder.Err? {
      return Err(Topology(postorder.error));
    }
    var order := postorder.value;
    var parents := set x | x in nodes && nodes[x].parent.Some? :: nodes[x].parent.value;
    ParentsHaveChildren(nodes, parents);
    var root := ScopeRoot(nodes, scope);
    if root.Err? {
      return Err(root.error);
    }
    var unproven := MarkInherited(ParentMap(nodes), Unqualified(nodes, root.value), order);
    assert |ParentMap(nodes)| == |nodes| by {
      assert ParentMap(nodes).Keys == nodes.Keys;
    }
    r := DecideBottomUp(nodes, root.value, StepFor(nodes, root.value), order, unproven, parents);
  }

  lemma ParentsHaveChildren(nodes: Items, parents: set<Id>)
    requires parents == set x | x in nodes && nodes[x].parent.Some? :: nodes[x].parent.value
    ensures forall x {:trigger HasChildren(nodes, x)} :: x in nodes ==> (x in parents <==> HasChildren(nodes, x))
  {
    forall x | x in nodes ensures x in parents <==> HasChildren(nodes, x) {
      if x in parents {
        var c :| c in nodes && nodes[c].parent.Some? && nodes[c].parent.value == x;
        assert c in Children(ParentMap(nodes), x);
      }
      if HasChildren(nodes, x) {
        var c :| c in Children(ParentMap(nodes), x);
        assert c in nodes && nodes[c].parent == Some(x);
      }
    }
  }
}
