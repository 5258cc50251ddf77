/** Read-only summaries of a complete forest: leaf counts and recorded estimates per subtree. */
module HierarchyProgress {
  import opened Base
  import opened Forest
  import opened Indexing
  import opened Rollup
  import opened HierarchyStatus

  /** Portable bound shared with clients that store signed 64-bit integers. */
  const MAX_VALUE: nat := I64_MAX

  datatype Kind = Task | Project | Goal | Routine | Habit | Break | Event

  datatype Estimate = Estimate(minimum: nat, expected: nat, maximum: nat)
  {
    predicate Valid() {
      1 <= minimum <= expected <= maximum <= MAX_VALUE
    }
  }

  datatype Item = Item(
    id: Id,
    parent: Option<Id>,
    kind: Kind,
    status: Status,
    hasOwnEffort: bool,
    recurs: bool,
    hasChildrenOutsidePlan: bool,
    duration: Option<Estimate>)

  /** The ten totals of a summary. */
  datatype Field =
    | CompletedLeaves
    | SkippedLeaves
    | CancelledLeaves
    | OpenLeaves
    | RecurringLeaves
    | FixedEvents
    | UnknownEstimates
    | MinimumSeconds
    | ExpectedSeconds
    | MaximumSeconds

  datatype Summary = Summary(
    completedLeaves: nat,
    skippedLeaves: nat,
    cancelledLeaves: nat,
    openLeaves: nat,
    recurringLeaves: nat,
    fixedEvents: nat,
    unknownEstimates: nat,
    minimumSeconds: nat,
    expectedSeconds: nat,
    maximumSeconds: nat)
  {
    function Get(field: Field): nat {
      match field
      case CompletedLeaves => completedLeaves
      case SkippedLeaves => skippedLeaves
      case CancelledLeaves => cancelledLeaves
      case OpenLeaves => openLeaves
      case RecurringLeaves => recurringLeaves
      case FixedEvents => fixedEvents
      case UnknownEstimates => unknownEstimates
      case MinimumSeconds => minimumSeconds
      case ExpectedSeconds => expectedSeconds
      case MaximumSeconds => maximumSeconds
    }

    /** Leaf classifications; the other fields are events and estimates. */
    function Leaves(): nat {
      completedLeaves + skippedLeaves + cancelledLeaves + openLeaves + recurringLeaves
    }
  }

  const EMPTY := Summary(0, 0, 0, 0, 0, 0, 0, 0, 0, 0)

  datatype Error =
    | InvalidId
    | DuplicateItem(id: Id)
    | Topology(topology: TopologyError)
    | IncompleteTopology(id: Id)
    | InvalidDuration(id: Id)
    | Overflow(id: Id)

  type Items = map<Id, Item>

  /** Field-wise addition, refused as soon as one field would exceed the portable bound. */
  function CheckedAdd(a: Summary, b: Summary): (r: Option<Summary>)
    ensures r.None? <==> exists field: Field :: a.Get(field) + b.Get(field) > MAX_VALUE
    ensures r.Some? ==> forall field: Field :: r.value.Get(field) == a.Get(field) + b.Get(field)
  {
    var sum := Summary(
      a.completedLeaves + b.completedLeaves,
      a.skippedLeaves + b.skippedLeaves,
      a.cancelledLeaves + b.cancelledLeaves,
      a.openLeaves + b.openLeaves,
      a.recurringLeaves + b.recurringLeaves,
      a.fixedEvents + b.fixedEvents,
      a.unknownEstimates + b.unknownEstimates,
      a.minimumSeconds + b.minimumSeconds,
      a.expectedSeconds + b.expectedSeconds,
      a.maximumSeconds + b.maximumSeconds);
    assert forall field: Field :: sum.Get(field) == a.Get(field) + b.Get(field);
    if sum.completedLeaves > MAX_VALUE then assert a.Get(CompletedLeaves) + b.Get(CompletedLeaves) > MAX_VALUE; None
    else if sum.skippedLeaves > MAX_VALUE then assert a.Get(SkippedLeaves) + b.Get(SkippedLeaves) > MAX_VALUE; None
    else if sum.cancelledLeaves > MAX_VALUE then assert a.Get(CancelledLeaves) + b.Get(CancelledLeaves) > MAX_VALUE; None
    else if sum.openLeaves > MAX_VALUE then assert a.Get(OpenLeaves) + b.Get(OpenLeaves) > MAX_VALUE; None
    else if sum.recurringLeaves > MAX_VALUE then assert a.Get(RecurringLeaves) + b.Get(RecurringLeaves) > MAX_VALUE; None
    else if sum.fixedEvents > MAX_VALUE then assert a.Get(FixedEvents) + b.Get(FixedEvents) > MAX_VALUE; None
    else if sum.unknownEstimates > MAX_VALUE then assert a.Get(UnknownEstimates) + b.Get(UnknownEstimates) > MAX_VALUE; None
    else if sum.minimumSeconds > MAX_VALUE then assert a.Get(MinimumSeconds) + b.Get(MinimumSeconds) > MAX_VALUE; None
    else if sum.expectedSeconds > MAX_VALUE then assert a.Get(ExpectedSeconds) + b.Get(ExpectedSeconds) > MAX_VALUE; None
    else if sum.maximumSeconds > MAX_VALUE then assert a.Get(MaximumSeconds) + b.Get(MaximumSeconds) > MAX_VALUE; None
    else Some(sum)
  }

  /** Whether a leaf of this kind contributes recorded effort. */
  predicate HasEffort(item: Item) {
    match item.kind
    case Event => false
    case Project => item.hasOwnEffort
    case Goal => item.hasOwnEffort
    case Routine => item.hasOwnEffort
    case _ => true
  }

  function One(b: bool): nat {
    if b then 1 else 0
  }

  /** What one item contributes by itself: recurring leaves are only counted as such, events count
      even with children, and only other leaves are classified and contribute their estimate. */
  function OwnSummary(item: Item, isLeaf: bool, isRecurring: bool): Summary {
    var plain := isLeaf && !isRecurring;
    var effort := plain && HasEffort(item);
    var known := effort && item.duration.Some?;
    Summary(
      One(plain && item.status.Completed?),
      One(plain && item.status.Skipped?),
      One(plain && item.status.Cancelled?),
      One(plain && item.status.Open()),
      One(isLeaf && isRecurring),
      One(!isRecurring && item.kind.Event?),
      One(effort && item.duration.None?),
      if known then item.duration.value.minimum else 0,
      if known then item.duration.value.expected else 0,
      if known then item.duration.value.maximum else 0)
  }

  // ---- Indexing ----

  function IdOf(item: Item): Id {
    item.id
  }

  /** Three positive numbers of seconds in ascending order. */
  ghost predicate Plausible(d: Estimate) {
    0 < d.minimum && d.minimum <= d.expected && d.expected <= d.maximum && d.maximum <= I64_MAX
  }

  /** The first complaint about an item, given the items before it. */
  ghost function ItemFault(earlier: seq<Item>, item: Item): Option<Error> {
    if item.id == NIL || item.parent == Some(NIL) then Some(InvalidId)
    else if Has(earlier, IdOf, item.id) then Some(DuplicateItem(item.id))
    else if item.hasChildrenOutsidePlan then Some(IncompleteTopology(item.id))
    else if item.duration.Some? && !Plausible(item.duration.value) then Some(InvalidDuration(item.id))
    else None
  }

  ghost function IndexError(items: seq<Item>): Option<Error> {
    FirstFault(items, ItemFault)
  }

  function ById(items: seq<Item>): Items {
    Index(items, IdOf)
  }

  ghost predicate ValidDurations(nodes: Items) {
    forall x :: x in nodes ==> nodes[x].duration.Some? ==> nodes[x].duration.value.Valid()
  }

  method IndexItems(items: seq<Item>) returns (r: Result<Items, Error>)
    ensures r == if IndexError(items).Some? then Err(IndexError(items).value) else Ok(ById(items))
    ensures r.Ok? ==> ValidDurations(r.value)
  {
    var nodes: Items := map[];
    for i := 0 to |items|
      invariant IndexError(items[..i]) == None
      invariant nodes == ById(items[..i]) && ValidDurations(nodes)
    {
      var item := items[i];
      IndexNext(items, i, IdOf, ItemFault);
      if item.id == NIL || item.parent == Some(NIL) {
        return Err(InvalidId);
      }
      if item.id in nodes {
        return Err(DuplicateItem(item.id));
      }
      nodes := nodes[item.id := item];
      if item.hasChildrenOutsidePlan {
        return Err(IncompleteTopology(item.id));
      }
      if item.duration.Some? && !item.duration.value.Valid() {
        return Err(InvalidDuration(item.id));
      }
    }
    assert items[..|items|] == items;
    r := Ok(nodes);
  }

  // ---- Declarative totals ----

  function ParentMap(nodes: Items): Parents {
    map x | x in nodes :: nodes[x].parent
  }

  function RecurringRoots(nodes: Items): set<Id> {
    set x | x in nodes && nodes[x].recurs
  }

  /** Recurrence is inherited through every ancestor. */
  ghost function Own(nodes: Items, x: Id): Summary
    requires x in nodes
  {
    OwnSummary(nodes[x], Children(ParentMap(nodes), x) == {}, Inherits(ParentMap(nodes), RecurringRoots(nodes), x))
  }

  ghost predicate OwnAt(nodes: Items, own: map<Id, Summary>, x: Id)
    requires x in nodes && x in own
  {
    own[x] == Own(nodes, x)
  }

  /** `own` holds every item's own contribution. */
  ghost predicate AllOwn(nodes: Items, own: map<Id, Summary>) {
    own.Keys == nodes.Keys && forall x {:trigger OwnAt(nodes, own, x)} :: x in nodes ==> OwnAt(nodes, own, x)
  }

  ghost function Weights(nodes: Items, field: Field): map<Id, nat> {
    map x | x in nodes :: Own(nodes, x).Get(field)
  }

  /** One total of the whole subtree of `x`. */
  ghost function SubtreeTotal(nodes: Items, field: Field, x: Id): nat {
    Total(ParentMap(nodes), Weights(nodes, field), x)
  }

  ghost function Values(summaries: map<Id, Summary>, field: Field): map<Id, nat> {
    map x | x in summaries :: summaries[x].Get(field)
  }

  ghost predicate GatheredField(nodes: Items, done: set<Id>, summaries: map<Id, Summary>, field: Field) {
    SumsTo(ParentMap(nodes), Weights(nodes, field), done, Values(summaries, field))
  }

  /** The summaries hold, field by field, the sums of the branches finished so far. */
  ghost predicate Gathered(nodes: Items, done: set<Id>, summaries: map<Id, Summary>) {
    forall field {:trigger GatheredField(nodes, done, summaries, field)} :: GatheredField(nodes, done, summaries, field)
  }

  lemma OwnWithinBound(nodes: Items, x: Id, field: Field)
    requires x in nodes && ValidDurations(nodes)
    ensures Own(nodes, x).Get(field) <= MAX_VALUE
  {
  }

  /** Initial summaries: every item's own contribution. */
  method OwnSummaries(nodes: Items, counts: map<Id, nat>, recurring: map<Id, bool>) returns (summaries: map<Id, Summary>)
    requires CountsChildren(ParentMap(nodes), counts)
    requires recurring.Keys == nodes.Keys && AllMarked(ParentMap(nodes), RecurringRoots(nodes), recurring)
    ensures AllOwn(nodes, summaries)
  {
    summaries := map x | x in nodes :: OwnSummary(nodes[x], counts[x] == 0, recurring[x]);
    forall x | x in nodes ensures OwnAt(nodes, summaries, x) {
      ChildCount(ParentMap(nodes), counts, x);
      assert Marked(ParentMap(nodes), RecurringRoots(nodes), recurring, x);
    }
  }

  lemma GatheredStart(nodes: Items, summaries: map<Id, Summary>)
    requires AllOwn(nodes, summaries)
    ensures Gathered(nodes, {}, summaries)
  {
    forall field ensures GatheredField(nodes, {}, summaries, field) {
      assert Values(summaries, field) == Weights(nodes, field) by {
        assert forall x :: x in nodes ==> OwnAt(nodes, summaries, x);
      }
      SumsStart(ParentMap(nodes), Weights(nodes, field));
    }
  }

  /** `after` is `summaries` with the totals of `c` added to its parent's. */
  ghost predicate HandedUp(nodes: Items, summaries: map<Id, Summary>, c: Id, after: map<Id, Summary>)
    requires c in nodes && summaries.Keys == nodes.Keys
  {
    match nodes[c].parent
    case None => after == summaries
    case Some(p) =>
      && p in nodes
      && CheckedAdd(summaries[p], summaries[c]).Some?
      && after == summaries[p := CheckedAdd(summaries[p], summaries[c]).value]
  }

  lemma HandedUpField(nodes: Items, summaries: map<Id, Summary>, c: Id, after: map<Id, Summary>, field: Field)
    requires c in nodes && summaries.Keys == nodes.Keys && HandedUp(nodes, summaries, c, after)
    ensures Values(after, field) == HandUp(ParentMap(nodes), Values(summaries, field), c)
  {
  }

  lemma GatheredFieldStep(nodes: Items, done: set<Id>, summaries: map<Id, Summary>, c: Id, after: map<Id, Summary>, field: Field)
    requires Closed(ParentMap(nodes)) && Acyclic(ParentMap(nodes)) && GatheredField(nodes, done, summaries, field)
    requires c in nodes && c !in done && Children(ParentMap(nodes), c) <= done && summaries.Keys == nodes.Keys
    requires HandedUp(nodes, summaries, c, after)
    ensures GatheredField(nodes, done + {c}, after, field)
  {
    HandedUpField(nodes, summaries, c, after, field);
    SumsStep(ParentMap(nodes), Weights(nodes, field), done, Values(summaries, field), c);
  }

  /** One reduction: the child's totals are added to its parent's. */
  lemma GatheredStep(nodes: Items, done: set<Id>, summaries: map<Id, Summary>, c: Id, after: map<Id, Summary>)
    requires Closed(ParentMap(nodes)) && Acyclic(ParentMap(nodes)) && Gathered(nodes, done, summaries)
    requires c in nodes && c !in done && Children(ParentMap(nodes), c) <= done && summaries.Keys == nodes.Keys
    requires HandedUp(nodes, summaries, c, after)
    ensures Gathered(nodes, done + {c}, after)
  {
    forall field ensures GatheredField(nodes, done + {c}, after, field) {
      assert GatheredField(nodes, done, summaries, field);
      GatheredFieldStep(nodes, done, summaries, c, after, field);
    }
  }

  /** One total of `p` and of those of its branches whose roots are in `done`. */
  ghost function PartialTotal(nodes: Items, field: Field, done: set<Id>, p: Id): nat
    requires p in nodes
  {
    Own(nodes, p).Get(field) + Sum(Branches(ParentMap(nodes), done, p), Weights(nodes, field))
  }

  lemma PartialSum(nodes: Items, done: set<Id>, summaries: map<Id, Summary>, c: Id, p: Id, field: Field)
    requires Closed(ParentMap(nodes)) && Acyclic(ParentMap(nodes)) && GatheredField(nodes, done, summaries, field)
    requires c in nodes && c !in done && Children(ParentMap(nodes), c) <= done && summaries.Keys == nodes.Keys
    requires nodes[c].parent == Some(p) && p in nodes
    ensures summaries[p].Get(field) + summaries[c].Get(field) == PartialTotal(nodes, field, done + {c}, p) <= SubtreeTotal(nodes, field, p)
  {
    var f, w, acc := ParentMap(nodes), Weights(nodes, field), Values(summaries, field);
    SumsStep(f, w, done, acc, c);
    assert SumAt(f, w, done + {c}, HandUp(f, acc, c), p);
    SumBelowTotal(f, w, done + {c}, HandUp(f, acc, c), p);
  }

  /** Adding the branch of `order[k]` takes some total of its parent out of bounds. */
  ghost predicate Refused(nodes: Items, order: seq<Id>, k: nat) {
    && k < |order| && order[k] in nodes && nodes[order[k]].parent.Some? && nodes[order[k]].parent.value in nodes
    && exists field :: PartialTotal(nodes, field, Elements(order[..k]) + {order[k]}, nodes[order[k]].parent.value) > MAX_VALUE
  }

  lemma RefusedIff(nodes: Items, order: seq<Id>, k: nat, summaries: map<Id, Summary>)
    requires Closed(ParentMap(nodes)) && Acyclic(ParentMap(nodes)) && k < |order|
    requires Gathered(nodes, Elements(order[..k]), summaries) && summaries.Keys == nodes.Keys
    requires order[k] in nodes && order[k] !in Elements(order[..k]) && Children(ParentMap(nodes), order[k]) <= Elements(order[..k])
    requires nodes[order[k]].parent.Some? && nodes[order[k]].parent.value in nodes
    ensures Refused(nodes, order, k) <==> CheckedAdd(summaries[nodes[order[k]].parent.value], summaries[order[k]]).None?
    ensures Refused(nodes, order, k) ==> exists field :: SubtreeTotal(nodes, field, nodes[order[k]].parent.value) > MAX_VALUE
  {
    var done, c := Elements(order[..k]), order[k];
    var p := nodes[c].parent.value;
    forall field: Field
      ensures summaries[p].Get(field) + summaries[c].Get(field) == PartialTotal(nodes, field, done + {c}, p) <= SubtreeTotal(nodes, field, p)
    {
      assert GatheredField(nodes, done, summaries, field);
      PartialSum(nodes, done, summaries, c, p, field);
    }
  }

  /** All totals of `nodes` fit. */
  ghost predicate Fits(nodes: Items) {
    forall x, field {:trigger SubtreeTotal(nodes, field, x)} :: x in nodes ==> SubtreeTotal(nodes, field, x) <= MAX_VALUE
  }

  ghost predicate Summarizes(nodes: Items, summaries: map<Id, Summary>) {
    && summaries.Keys == nodes.Keys
    && forall x, field {:trigger SubtreeTotal(nodes, field, x)} :: x in nodes ==> summaries[x].Get(field) == SubtreeTotal(nodes, field, x)
  }

  ghost predicate Bounded(summaries: map<Id, Summary>) {
    forall x, field {:trigger summaries[x].Get(field)} :: x in summaries ==> summaries[x].Get(field) <= MAX_VALUE
  }

  /** Hands the totals of the `k`th item to its parent. */
  method HandUpSummary(nodes: Items, order: seq<Id>, k: nat, summaries: map<Id, Summary>) returns (r: Result<map<Id, Summary>, Error>)
    requires Closed(ParentMap(nodes)) && Acyclic(ParentMap(nodes)) && k < |order| && Gathered(nodes, Elements(order[..k]), summaries)
    requires order[k] in nodes && order[k] !in Elements(order[..k]) && Children(ParentMap(nodes), order[k]) <= Elements(order[..k])
    requires summaries.Keys == nodes.Keys && Bounded(summaries)
    ensures r.Ok? ==> r.value.Keys == nodes.Keys && Bounded(r.value) && Gathered(nodes, Elements(order[..k]) + {order[k]}, r.value)
    ensures r.Ok? ==> !Refused(nodes, order, k)
    ensures r.Err? ==> Refused(nodes, order, k) && r.error == Overflow(nodes[order[k]].parent.value) && OverflowsAt(nodes, r.error)
  {
    var after, c := summaries, order[k];
    if nodes[c].parent.Some? {
      var p := nodes[c].parent.value;
      assert !Orphan(ParentMap(nodes), c);
      RefusedIff(nodes, order, k, summaries);
      var sum := CheckedAdd(summaries[p], summaries[c]);
      if sum.None? {
        return Err(Overflow(p));
      }
      after := summaries[p := sum.value];
    }
    GatheredStep(nodes, Elements(order[..k]), summaries, c, after);
    r := Ok(after);
  }

  /** The error names an item with a subtree total out of bounds. */
  ghost predicate OverflowsAt(nodes: Items, error: Error) {
    error.Overflow? && error.id in nodes && exists field :: SubtreeTotal(nodes, field, error.id) > I64_MAX
  }

  /** The error names the parent of the first item, in the order of the reduction, whose totals its
      parent cannot take. */
  ghost predicate FirstRefusal(nodes: Items, order: seq<Id>, error: Error) {
    exists k: nat {:trigger Refused(nodes, order, k)} ::
      Refused(nodes, order, k) && (forall j: nat :: j < k ==> !Refused(nodes, order, j)) && error == Overflow(nodes[order[k]].parent.value)
  }

  /** The first `k` items of the order have been handed up, none refused. */
  ghost predicate ReducedTo(nodes: Items, order: seq<Id>, k: nat, summaries: map<Id, Summary>)
    requires k <= |order|
  {
    && summaries.Keys == nodes.Keys && Bounded(summaries)
    && Gathered(nodes, Elements(order[..k]), summaries)
    && forall j: nat :: j < k ==> !Refused(nodes, order, j)
  }

  ghost predicate ReductionFailed(nodes: Items, order: seq<Id>, error: Error) {
    OverflowsAt(nodes, error) && FirstRefusal(nodes, order, error)
  }

  method ReduceNext(nodes: Items, order: seq<Id>, k: nat, summaries: map<Id, Summary>) returns (r: Result<map<Id, Summary>, Error>)
    requires Closed(ParentMap(nodes)) && Acyclic(ParentMap(nodes)) && IsPostorder(ParentMap(nodes), order)
    requires k < |order| && ReducedTo(nodes, order, k, summaries)
    ensures r.Ok? ==> ReducedTo(nodes, order, k + 1, r.value)
    ensures r.Err? ==> ReductionFailed(nodes, order, r.error)
  {
    NextInOrder(ParentMap(nodes), order, k);
    r := HandUpSummary(nodes, order, k, summaries);
  }

  /** The bottom-up reduction. */
  method Reduce(nodes: Items, order: seq<Id>, own: map<Id, Summary>) returns (r: Result<map<Id, Summary>, Error>)
    requires Closed(ParentMap(nodes)) && Acyclic(ParentMap(nodes)) && IsPostorder(ParentMap(nodes), order)
    requires ReducedTo(nodes, order, 0, own)
    ensures r.Ok? ==> ReducedTo(nodes, order, |order|, r.value)
    ensures r.Err? ==> ReductionFailed(nodes, order, r.error)
  {
    var summaries := own;
    for k := 0 to |order|
      invariant ReducedTo(nodes, order, k, summaries)
    {
      var next := ReduceNext(nodes, order, k, summaries);
      if next.Err? {
        return next;
      }
      summaries := next.value;
    }
    r := Ok(summaries);
  }

  lemma ReductionStart(nodes: Items, order: seq<Id>, own: map<Id, Summary>)
    requires ValidDurations(nodes) && AllOwn(nodes, own)
    ensures ReducedTo(nodes, order, 0, own)
  {
    GatheredStart(nodes, own);
    OwnBounded(nodes, own);
    assert Elements(order[..0]) == {};
  }

  lemma ReductionEnd(nodes: Items, order: seq<Id>, summaries: map<Id, Summary>)
    requires Closed(ParentMap(nodes)) && Acyclic(ParentMap(nodes)) && IsPostorder(ParentMap(nodes), order)
    requires ReducedTo(nodes, order, |order|, summaries)
    ensures Summarizes(nodes, summaries) && Fits(nodes)
  {
    assert order[..|order|] == order && ParentMap(nodes).Keys == nodes.Keys;
    GatheredDone(nodes, summaries);
  }

  lemma OwnBounded(nodes: Items, own: map<Id, Summary>)
    requires ValidDurations(nodes) && AllOwn(nodes, own)
    ensures Bounded(own)
  {
    forall x, field | x in own ensures own[x].Get(field) <= MAX_VALUE {
      assert OwnAt(nodes, own, x);
      OwnWithinBound(nodes, x, field);
    }
  }

  lemma NextInOrder(f: Parents, order: seq<Id>, k: nat)
    requires IsPostorder(f, order) && k < |order|
    ensures order[k] in f && order[k] !in Elements(order[..k])
    ensures Children(f, order[k]) <= Elements(order[..k])
    ensures Elements(order[..k + 1]) == Elements(order[..k]) + {order[k]}
  {
    assert order[k] in Elements(order);
    TakeNext(order, k);
  }

  lemma GatheredDone(nodes: Items, summaries: map<Id, Summary>)
    requires Closed(ParentMap(nodes)) && Acyclic(ParentMap(nodes)) && summaries.Keys == nodes.Keys
    requires Gathered(nodes, nodes.Keys, summaries) && Bounded(summaries)
    ensures Summarizes(nodes, summaries) && Fits(nodes)
  {
    forall x, field | x in nodes
      ensures summaries[x].Get(field) == SubtreeTotal(nodes, field, x) <= MAX_VALUE
    {
      FieldDone(nodes, summaries, x, field);
    }
  }

  lemma FieldDone(nodes: Items, summaries: map<Id, Summary>, x: Id, field: Field)
    requires Closed(ParentMap(nodes)) && Acyclic(ParentMap(nodes)) && summaries.Keys == nodes.Keys && x in nodes
    requires Gathered(nodes, nodes.Keys, summaries)
    ensures summaries[x].Get(field) == SubtreeTotal(nodes, field, x)
  {
    assert GatheredField(nodes, nodes.Keys, summaries, field);
    assert ParentMap(nodes).Keys == nodes.Keys;
    SumsDone(ParentMap(nodes), Weights(nodes, field), Values(summaries, field), x);
  }

  /** Each item's subtree summary. Succeeds exactly when indexing and topology are clean and every
      subtree total fits; then each field is the declarative sum over the whole subtree. */
  method RollUpHierarchyProgress(items: seq<Item>) returns (r: Result<map<Id, Summary>, Error>)
    ensures r.Ok? <==>
      IndexError(items).None? && Fault(ParentMap(ById(items))).None? && Fits(ById(items))
    ensures r.Ok? ==> Summarizes(ById(items), r.value)
    ensures r.Ok? ==> DescribesAll(ById(items), r.value)
    ensures IndexError(items).Some? ==> r == Err(IndexError(items).value)
    ensures IndexError(items).None? && Fault(ParentMap(ById(items))).Some? ==>
      r == Err(Topology(Fault(ParentMap(ById(items))).value))
    ensures IndexError(items).None? && Fault(ParentMap(ById(items))).None? && r.Err? ==>
      ReductionFailed(ById(items), LeastFirst(ParentMap(ById(items)), |ById(items)|), r.error)
  {
    var indexed := IndexItems(items);
    if indexed.Err? {
      return Err(indexed.error);
    }
    var nodes := indexed.value;
    var f := ParentMap(nodes);
    FaultFree(f);
    var postorder := Postorder(f);
    if postorder.Err? {
      return Err(Topology(postorder.error));
    }
    var counts := CountChildren(f);
    var recurring := MarkInherited(f, RecurringRoots(nodes), postorder.value);
    var own := OwnSummaries(nodes, counts.value, recurring);
    ReductionStart(nodes, postorder.value, own);
    r := Reduce(nodes, postorder.value, own);
    if r.Ok? {
      ReductionEnd(nodes, postorder.value, r.value);
      AllDescribed(nodes, r.value);
    } else {
      OverflowMisfits(nodes, r.error);
    }
  }

  lemma OverflowMisfits(nodes: Items, error: Error)
    requires OverflowsAt(nodes, error)
    ensures !Fits(nodes)
  {
    var field :| SubtreeTotal(nodes, field, error.id) > MAX_VALUE;
  }

  // ---- What a summary says about the items ----

  ghost function Leaves(nodes: Items): set<Id> {
    set x | x in nodes && Children(ParentMap(nodes), x) == {}
  }

  /** The item or one of its ancestors recurs. */
  ghost predicate Recurring(nodes: Items, x: Id) {
    exists a :: a in nodes && Below(ParentMap(nodes), x, a) && nodes[a].recurs
  }

  /** Leaves that do not recur. */
  ghost function PlainLeaves(nodes: Items): set<Id> {
    set x | x in Leaves(nodes) && !Recurring(nodes, x)
  }

  /** Containers carry effort only when they say so, and events never do. */
  predicate CarriesEffort(item: Item) {
    item.kind != Event && (item.kind in {Project, Goal, Routine} ==> item.hasOwnEffort)
  }

  ghost function WithStatus(nodes: Items, statuses: set<Status>): set<Id> {
    set x | x in PlainLeaves(nodes) && nodes[x].status in statuses
  }

  const TERMINAL: set<Status> := {Completed, Skipped, Cancelled}

  ghost function OpenOnes(nodes: Items): set<Id> {
    set x | x in PlainLeaves(nodes) && nodes[x].status !in TERMINAL
  }

  ghost function RecurringOnes(nodes: Items): set<Id> {
    set x | x in Leaves(nodes) && Recurring(nodes, x)
  }

  ghost function Events(nodes: Items): set<Id> {
    set x | x in nodes && nodes[x].kind.Event? && !Recurring(nodes, x)
  }

  ghost function Estimated(nodes: Items): set<Id> {
    set x | x in PlainLeaves(nodes) && CarriesEffort(nodes[x]) && nodes[x].duration.Some?
  }

  ghost function Unestimated(nodes: Items): set<Id> {
    set x | x in PlainLeaves(nodes) && CarriesEffort(nodes[x]) && nodes[x].duration.None?
  }

  ghost function EstimatesBy(nodes: Items, read: Estimate -> nat): map<Id, nat> {
    map x | x in nodes && nodes[x].duration.Some? :: read(nodes[x].duration.value)
  }

  /** Leaves counted by status, recurrence apart, events, leaves with effort but no estimate, and the
      three sums over the estimates of the others. */
  ghost predicate Reads(nodes: Items, summary: Summary, count: set<Id> -> nat, total: (set<Id>, map<Id, nat>) -> nat) {
    && summary.completedLeaves == count(WithStatus(nodes, {Completed}))
    && summary.skippedLeaves == count(WithStatus(nodes, {Skipped}))
    && summary.cancelledLeaves == count(WithStatus(nodes, {Cancelled}))
    && summary.openLeaves == count(OpenOnes(nodes))
    && summary.recurringLeaves == count(RecurringOnes(nodes))
    && summary.fixedEvents == count(Events(nodes))
    && summary.unknownEstimates == count(Unestimated(nodes))
    && summary.minimumSeconds == total(Estimated(nodes), EstimatesBy(nodes, (e: Estimate) => e.minimum))
    && summary.expectedSeconds == total(Estimated(nodes), EstimatesBy(nodes, (e: Estimate) => e.expected))
    && summary.maximumSeconds == total(Estimated(nodes), EstimatesBy(nodes, (e: Estimate) => e.maximum))
  }

  ghost function CountIn(s: set<Id>): set<Id> -> nat {
    part => |s * part|
  }

  ghost function SumIn(s: set<Id>): (set<Id>, map<Id, nat>) -> nat {
    (part, amounts) => Sum(s * part, amounts)
  }

  /** The summary of the items in `s`. */
  ghost predicate Describes(nodes: Items, summary: Summary, s: set<Id>) {
    Reads(nodes, summary, CountIn(s), SumIn(s))
  }

  ghost predicate DescribesAll(nodes: Items, summaries: map<Id, Summary>) {
    && summaries.Keys == nodes.Keys
    && forall x {:trigger Subtree(ParentMap(nodes), x)} :: x in nodes ==> Describes(nodes, summaries[x], Subtree(ParentMap(nodes), x))
  }

  lemma AllDescribed(nodes: Items, summaries: map<Id, Summary>)
    requires Summarizes(nodes, summaries)
    ensures DescribesAll(nodes, summaries)
  {
    forall x | x in nodes ensures Describes(nodes, summaries[x], Subtree(ParentMap(nodes), x)) {
      SummaryMeaning(nodes, summaries, x);
    }
  }

  lemma RecurringIff(nodes: Items, x: Id)
    requires x in nodes
    ensures Inherits(ParentMap(nodes), RecurringRoots(nodes), x) <==> Recurring(nodes, x)
  {
    if Recurring(nodes, x) {
      var a :| a in nodes && Below(ParentMap(nodes), x, a) && nodes[a].recurs;
      assert a in RecurringRoots(nodes);
    }
    if Inherits(ParentMap(nodes), RecurringRoots(nodes), x) {
      var a :| a in RecurringRoots(nodes) && Below(ParentMap(nodes), x, a);
      assert nodes[a].recurs;
    }
  }

  /** The items that a total counts, or whose estimates it adds up. */
  ghost function Class(nodes: Items, field: Field): set<Id> {
    match field
    case CompletedLeaves => WithStatus(nodes, {Completed})
    case SkippedLeaves => WithStatus(nodes, {Skipped})
    case CancelledLeaves => WithStatus(nodes, {Cancelled})
    case OpenLeaves => OpenOnes(nodes)
    case RecurringLeaves => RecurringOnes(nodes)
    case FixedEvents => Events(nodes)
    case UnknownEstimates => Unestimated(nodes)
    case _ => Estimated(nodes)
  }

  /** What each member of its class adds to a total. */
  ghost function Amounts(nodes: Items, field: Field): map<Id, nat> {
    match field
    case MinimumSeconds => EstimatesBy(nodes, (e: Estimate) => e.minimum)
    case ExpectedSeconds => EstimatesBy(nodes, (e: Estimate) => e.expected)
    case MaximumSeconds => EstimatesBy(nodes, (e: Estimate) => e.maximum)
    case _ => map x | x in nodes :: 1
  }

  /** One item's own contribution to each total. */
  lemma OwnMeans(nodes: Items, x: Id, field: Field)
    requires x in nodes
    ensures Own(nodes, x).Get(field) == if x in Class(nodes, field) then Weight(Amounts(nodes, field), x) else 0
  {
    RecurringIff(nodes, x);
  }

  lemma FieldMeans(nodes: Items, field: Field, s: set<Id>)
    requires s <= nodes.Keys
    ensures Sum(s, Weights(nodes, field)) == Sum(s * Class(nodes, field), Amounts(nodes, field))
  {
    forall d | d in s ensures WeighsAs(Weights(nodes, field), Class(nodes, field), Amounts(nodes, field), d) {
      OwnMeans(nodes, d, field);
    }
    SumPart(s, Weights(nodes, field), Class(nodes, field), Amounts(nodes, field));
  }

  ghost predicate IsCount(field: Field) {
    field !in {MinimumSeconds, ExpectedSeconds, MaximumSeconds}
  }

  lemma CountedField(nodes: Items, field: Field, s: set<Id>)
    requires s <= nodes.Keys && IsCount(field)
    ensures Sum(s, Weights(nodes, field)) == |s * Class(nodes, field)|
  {
    FieldMeans(nodes, field, s);
    var part := s * Class(nodes, field);
    SumCounts(part, Amounts(nodes, field), part);
    assert part * part == part;
  }

  /** A total over the class of its field: a count, or a sum of estimates. */
  ghost predicate FieldReads(nodes: Items, summary: Summary, field: Field, count: set<Id> -> nat, total: (set<Id>, map<Id, nat>) -> nat) {
    summary.Get(field) == if IsCount(field) then count(Class(nodes, field)) else total(Class(nodes, field), Amounts(nodes, field))
  }

  lemma AllFieldsRead(nodes: Items, summary: Summary, count: set<Id> -> nat, total: (set<Id>, map<Id, nat>) -> nat)
    requires forall field :: FieldReads(nodes, summary, field, count, total)
    ensures Reads(nodes, summary, count, total)
  {
    assert FieldReads(nodes, summary, CompletedLeaves, count, total) && FieldReads(nodes, summary, SkippedLeaves, count, total);
    assert FieldReads(nodes, summary, CancelledLeaves, count, total) && FieldReads(nodes, summary, OpenLeaves, count, total);
    assert FieldReads(nodes, summary, RecurringLeaves, count, total) && FieldReads(nodes, summary, FixedEvents, count, total);
    assert FieldReads(nodes, summary, UnknownEstimates, count, total) && FieldReads(nodes, summary, MinimumSeconds, count, total);
    assert FieldReads(nodes, summary, ExpectedSeconds, count, total) && FieldReads(nodes, summary, MaximumSeconds, count, total);
  }

  /** Each total of a subtree, stated on the items of the subtree. */
  lemma SummaryMeaning(nodes: Items, summaries: map<Id, Summary>, x: Id)
    requires Summarizes(nodes, summaries) && x in nodes
    ensures Describes(nodes, summaries[x], Subtree(ParentMap(nodes), x))
  {
    var s := Subtree(ParentMap(nodes), x);
    assert s <= nodes.Keys;
    forall field ensures FieldReads(nodes, summaries[x], field, CountIn(s), SumIn(s)) {
      assert summaries[x].Get(field) == SubtreeTotal(nodes, field, x) == Sum(s, Weights(nodes, field));
      if IsCount(field) {
        CountedField(nodes, field, s);
      } else {
        FieldMeans(nodes, field, s);
      }
    }
    AllFieldsRead(nodes, summaries[x], CountIn(s), SumIn(s));
  }

  // ---- Every structural leaf is classified exactly once ----

  lemma FiveParts(s: set<Id>, a: set<Id>, b: set<Id>, c: set<Id>, d: set<Id>, e: set<Id>)
    requires a !! b !! c !! d !! e
    ensures |s * (a + b + c + d + e)| == |s * a| + |s * b| + |s * c| + |s * d| + |s * e|
  {
    DisjointParts(s, a, b);
    DisjointParts(s, a + b, c);
    DisjointParts(s, a + b + c, d);
    DisjointParts(s, a + b + c + d, e);
  }

  lemma LeafClasses(nodes: Items)
    ensures WithStatus(nodes, {Completed}) !! WithStatus(nodes, {Skipped}) !! WithStatus(nodes, {Cancelled}) !! OpenOnes(nodes) !! RecurringOnes(nodes)
    ensures WithStatus(nodes, {Completed}) + WithStatus(nodes, {Skipped}) + WithStatus(nodes, {Cancelled}) + OpenOnes(nodes) + RecurringOnes(nodes)
            == Leaves(nodes)
  {
  }

  /** The five leaf counts of a summary add up to the number of structural leaves in the subtree. */
  lemma LeavesClassifiedOnce(nodes: Items, summaries: map<Id, Summary>, x: Id)
    requires Summarizes(nodes, summaries) && x in nodes
    ensures summaries[x].Leaves() == |Subtree(ParentMap(nodes), x) * Leaves(nodes)|
  {
    SummaryMeaning(nodes, summaries, x);
    LeavesAdd(nodes, summaries[x], Subtree(ParentMap(nodes), x));
  }

  lemma LeavesAdd(nodes: Items, summary: Summary, s: set<Id>)
    requires Describes(nodes, summary, s)
    ensures summary.Leaves() == |s * Leaves(nodes)|
  {
    LeafClasses(nodes);
    FiveParts(s, WithStatus(nodes, {Completed}), WithStatus(nodes, {Skipped}), WithStatus(nodes, {Cancelled}), OpenOnes(nodes), RecurringOnes(nodes));
  }
}
