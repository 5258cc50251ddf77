/** Expected planning minutes per subtree, reduced with a stack and saturating addition. */
module ExpectedDurations {
  import opened Base
  import opened Forest
  import opened Indexing
  import opened Rollup

  /** Whole minutes, stored in 32 bits. */
  type Minutes = n: nat | n <= U32_MAX

  datatype Kind = Task | Project | RecurringTask | Habit | Routine | Goal | Break | CalendarEvent

  datatype Estimate = Estimate(expected: Minutes, remaining: Option<Minutes>)
  {
    function PlanningMinutes(): Minutes {
      match remaining
      case Some(minutes) => minutes
      case None => expected
    }
  }

  datatype Item = Item(
    id: Id,
    parent: Option<Id>,
    kind: Kind,
    hasOwnEffort: bool,
    hasChildrenOutsidePlan: bool,
    duration: Option<Estimate>)

  datatype Error = DuplicateItem(id: Id) | Topology(topology: TopologyError)

  type Items = map<Id, Item>

  /** Calendar events keep their interval; flexible demand belongs to leaves only, and leaf
      containers need explicit effort of their own. */
  predicate OccupiesTime(item: Item, hasChildren: bool) {
    match item.kind
    case CalendarEvent => true
    case Project => !hasChildren && !item.hasChildrenOutsidePlan && item.hasOwnEffort
    case Goal => !hasChildren && !item.hasChildrenOutsidePlan && item.hasOwnEffort
    case Routine => !hasChildren && !item.hasChildrenOutsidePlan && item.hasOwnEffort
    case _ => !hasChildren && !item.hasChildrenOutsidePlan
  }

  function OwnMinutes(item: Item, hasChildren: bool): Minutes {
    if OccupiesTime(item, hasChildren) && item.duration.Some? then item.duration.value.PlanningMinutes() else 0
  }

  function SaturatingAdd(a: Minutes, b: Minutes): Minutes {
    if a + b <= U32_MAX then a + b else U32_MAX
  }

  function Capped(n: nat): Minutes {
    if n <= U32_MAX then n else U32_MAX
  }

  function ParentMap(nodes: Items): Parents {
    map x | x in nodes :: nodes[x].parent
  }

  ghost function Weights(nodes: Items): map<Id, nat> {
    map x | x in nodes :: OwnMinutes(nodes[x], Children(ParentMap(nodes), x) != {}) as nat
  }

  /** The exact demand of the whole subtree of `x`. */
  ghost function TrueTotal(nodes: Items, x: Id): nat {
    Total(ParentMap(nodes), Weights(nodes), x)
  }

  /** Items that take time of their own: calendar events always, other items as leaves without
      children anywhere, and containers only with effort of their own. */
  ghost function Demanding(nodes: Items): set<Id> {
    set x | x in nodes && nodes[x].duration.Some?
            && (nodes[x].kind != CalendarEvent ==>
                  && Children(ParentMap(nodes), x) == {} && !nodes[x].hasChildrenOutsidePlan
                  && (nodes[x].kind in {Project, Goal, Routine} ==> nodes[x].hasOwnEffort))
  }

  /** The remaining minutes where they are known, else the expected ones. */
  ghost function Demands(nodes: Items): map<Id, nat> {
    map x | x in nodes && nodes[x].duration.Some? ::
      var d := nodes[x].duration.value; if d.remaining.Some? then d.remaining.value as nat else d.expected as nat
  }

  /** The demand of the whole subtree of `x`, stated on its items. */
  ghost function SubtreeDemand(nodes: Items, x: Id): nat {
    Sum(Subtree(ParentMap(nodes), x) * Demanding(nodes), Demands(nodes))
  }

  lemma TrueTotalMeans(nodes: Items, x: Id)
    ensures TrueTotal(nodes, x) == SubtreeDemand(nodes, x)
  {
    var s := Subtree(ParentMap(nodes), x);
    forall d | d in s ensures WeighsAs(Weights(nodes), Demanding(nodes), Demands(nodes), d) {
    }
    SumPart(s, Weights(nodes), Demanding(nodes), Demands(nodes));
  }

  // ---- Indexing ----

  function IdOf(item: Item): Id {
    item.id
  }

  function ById(items: seq<Item>): Items {
    Index(items, IdOf)
  }

  ghost function DuplicateFault(earlier: seq<Item>, item: Item): Option<Id> {
    if Has(earlier, IdOf, item.id) then Some(item.id) else None
  }

  lemma NoDuplicates(items: seq<Item>)
    ensures FirstFault(items, DuplicateFault).None? <==> Distinguished(items, IdOf)
  {
    if FirstFault(items, DuplicateFault).None? {
      FaultlessDistinguished(items, IdOf, DuplicateFault);
    } else {
      var i := FaultOrigin(items, DuplicateFault);
      var j :| 0 <= j < i && IdOf(items[..i][j]) == items[i].id;
      assert IdOf(items[j]) == IdOf(items[i]);
    }
  }

  /** The first item whose id occurred before, if any. */
  method FindDuplicate(items: seq<Item>) returns (r: Option<Id>)
    ensures r == FirstFault(items, DuplicateFault)
  {
    var seen: set<Id> := {};
    for i := 0 to |items|
      invariant FirstFault(items[..i], DuplicateFault).None?
      invariant seen == ById(items[..i]).Keys
    {
      IndexNext(items, i, IdOf, DuplicateFault);
      if items[i].id in seen {
        return Some(items[i].id);
      }
      seen := seen + {items[i].id};
    }
    assert items[..|items|] == items;
    r := None;
  }

  predicate OrphanItem(known: set<Id>, item: Item) {
    item.parent.Some? && item.parent.value !in known
  }

  ghost function OrphanFault(known: set<Id>): (seq<Item>, Item) -> Option<TopologyError> {
    (earlier, item: Item) => if OrphanItem(known, item) then Some(MissingParent(item.id, item.parent.value)) else None
  }

  lemma ItemAt(items: seq<Item>, i: nat)
    requires Distinguished(items, IdOf) && i < |items|
    ensures var nodes := ById(items);
      && items[i].id in nodes && nodes[items[i].id] == items[i] && items[i].id !in ById(items[..i])
      && ParentMap(nodes)[items[i].id] == items[i].parent
      && (OrphanItem(nodes.Keys, items[i]) <==> Orphan(ParentMap(nodes), items[i].id))
  {
    IndexAt(items, IdOf, i);
    DistinguishedBefore(items, IdOf, i);
  }

  lemma NoOrphansClosed(items: seq<Item>)
    requires Distinguished(items, IdOf)
    ensures FirstFault(items, OrphanFault(ById(items).Keys)).None? <==> Closed(ParentMap(ById(items)))
  {
    var known, f := ById(items).Keys, ParentMap(ById(items));
    if FirstFault(items, OrphanFault(known)).Some? {
      var i := FaultOrigin(items, OrphanFault(known));
      ItemAt(items, i);
    } else {
      forall x ensures !Orphan(f, x) {
        if x in f {
          var i := IndexOrigin(items, IdOf, x);
          FaultlessAt(items, i, OrphanFault(known));
          ItemAt(items, i);
        }
      }
    }
  }

  ghost predicate Counted(items: seq<Item>, nodes: Items, i: nat, counts: map<Id, nat>)
    requires i <= |items|
  {
    && FirstFault(items[..i], OrphanFault(nodes.Keys)).None?
    && CountsSeen(ParentMap(nodes), ById(items[..i]).Keys, counts)
  }

  lemma CountedNext(items: seq<Item>, nodes: Items, i: nat, counts: map<Id, nat>)
    requires nodes == ById(items) && Distinguished(items, IdOf) && i < |items| && Counted(items, nodes, i, counts)
    ensures OrphanItem(nodes.Keys, items[i]) ==>
      FirstFault(items, OrphanFault(nodes.Keys)) == Some(MissingParent(items[i].id, items[i].parent.value))
    ensures !OrphanItem(nodes.Keys, items[i]) ==>
      (items[i].parent.Some? ==> items[i].parent.value in counts) && Counted(items, nodes, i + 1, AddChild(counts, items[i].parent))
  {
    var item := items[i];
    ItemAt(items, i);
    IndexNext(items, i, IdOf, OrphanFault(nodes.Keys));
    if !OrphanItem(nodes.Keys, item) {
      CountsSeenStep(ParentMap(nodes), ById(items[..i]).Keys, counts, item.id);
      assert ById(items[..i + 1]).Keys == ById(items[..i]).Keys + {item.id};
    }
  }

  /** Child counts, visiting the items in input order; the first unknown parent is reported. */
  method CountInOrder(items: seq<Item>, nodes: Items) returns (r: Result<map<Id, nat>, TopologyError>)
    requires nodes == ById(items) && Distinguished(items, IdOf)
    ensures r.Ok? ==> FirstFault(items, OrphanFault(nodes.Keys)).None? && CountsChildren(ParentMap(nodes), r.value)
    ensures r.Err? ==> FirstFault(items, OrphanFault(nodes.Keys)) == Some(r.error)
  {
    var counts: map<Id, nat> := map x | x in nodes :: 0;
    CountsSeenStart(ParentMap(nodes), counts);
    for i := 0 to |items|
      invariant Counted(items, nodes, i, counts)
    {
      CountedNext(items, nodes, i, counts);
      if items[i].parent.Some? && items[i].parent.value !in nodes {
        return Err(MissingParent(items[i].id, items[i].parent.value));
      }
      counts := AddChild(counts, items[i].parent);
    }
    assert items[..|items|] == items;
    assert ParentMap(nodes).Keys == nodes.Keys;
    CountsSeenAll(ParentMap(nodes), counts);
    r := Ok(counts);
  }

  // ---- The reduction ----

  /** The stored minutes are the exact accumulators, capped. */
  ghost predicate CappedAt(result: map<Id, Minutes>, exact: map<Id, nat>, x: Id)
    requires x in result && x in exact
  {
    result[x] == Capped(exact[x])
  }

  ghost predicate StoresCapped(result: map<Id, Minutes>, exact: map<Id, nat>) {
    result.Keys == exact.Keys && forall x {:trigger CappedAt(result, exact, x)} :: x in result ==> CappedAt(result, exact, x)
  }

  /** Stepwise saturation loses nothing against capping the exact sum once. */
  lemma SaturatingHandUp(f: Parents, result: map<Id, Minutes>, exact: map<Id, nat>, c: Id)
    requires StoresCapped(result, exact) && c in exact && c in f && (f[c].Some? ==> f[c].value in exact)
    ensures StoresCapped(if f[c].Some? then result[f[c].value := SaturatingAdd(result[f[c].value], result[c])] else result,
                         HandUp(f, exact, c))
  {
    var after := if f[c].Some? then result[f[c].value := SaturatingAdd(result[f[c].value], result[c])] else result;
    assert CappedAt(result, exact, c);
    forall x | x in after ensures CappedAt(after, HandUp(f, exact, c), x) {
      assert CappedAt(result, exact, x);
    }
  }

  method OwnMinutesOf(nodes: Items, counts: map<Id, nat>) returns (result: map<Id, Minutes>)
    requires CountsChildren(ParentMap(nodes), counts)
    ensures StoresCapped(result, Weights(nodes))
  {
    result := map x | x in nodes :: OwnMinutes(nodes[x], counts[x] != 0);
    forall x | x in result ensures CappedAt(result, Weights(nodes), x) {
      ChildCount(ParentMap(nodes), counts, x);
    }
  }

  /** The stored minutes cap accumulators that sum, in an acyclic forest, the finished branches. */
  ghost predicate Accumulated(f: Parents, w: map<Id, nat>, done: seq<Id>, result: map<Id, Minutes>, exact: map<Id, nat>) {
    && exact.Keys == f.Keys && StoresCapped(result, exact)
    && (Acyclic(f) ==> SumsTo(f, w, Elements(done), exact))
  }

  function HandUpMinutes(f: Parents, result: map<Id, Minutes>, id: Id): map<Id, Minutes>
    requires id in f && id in result && (f[id].Some? ==> f[id].value in result)
  {
    if f[id].Some? then result[f[id].value := SaturatingAdd(result[f[id].value], result[id])] else result
  }

  lemma AccumulatedStep(f: Parents, w: map<Id, nat>, done: seq<Id>, result: map<Id, Minutes>, exact: map<Id, nat>, id: Id)
    requires Closed(f) && Accumulated(f, w, done, result, exact)
    requires id in f && id !in Elements(done) && Children(f, id) <= Elements(done) && (f[id].Some? ==> f[id].value in f)
    ensures Accumulated(f, w, done + [id], HandUpMinutes(f, result, id), HandUp(f, exact, id))
  {
    ElementsAppend(done, id);
    if Acyclic(f) {
      SumsStep(f, w, Elements(done), exact, id);
    }
    SaturatingHandUp(f, result, exact, id);
  }

  /** Pops a ready item, adds its minutes to its parent's, and pushes the parent once it is ready. */
  method ReduceStack(f: Parents, ghost w: map<Id, nat>, counts: map<Id, nat>, own: map<Id, Minutes>)
    returns (result: map<Id, Minutes>, remaining: map<Id, nat>, ghost done: seq<Id>, ghost exact: map<Id, nat>)
    requires Closed(f) && CountsChildren(f, counts) && w.Keys == f.Keys && StoresCapped(own, w)
    ensures Reducing(f, done, remaining, {}) && Accumulated(f, w, done, result, exact)
  {
    result, remaining, done, exact := own, counts, [], w;
    var ready := InitialStack(counts);
    ReducingStart(f, counts, Elements(ready));
    SumsStart(f, w);
    assert Elements<Id>([]) == {};
    while ready != []
      invariant Distinct(ready) && Reducing(f, done, remaining, Elements(ready))
      invariant Accumulated(f, w, done, result, exact)
      decreases remaining.Keys
    {
      var id := ready[|ready| - 1];
      StackStep(f, done, remaining, ready);
      assert f[id].Some? ==> !Orphan(f, id);
      AccumulatedStep(f, w, done, result, exact, id);
      result, exact := HandUpMinutes(f, result, id), HandUp(f, exact, id);
      ready := NextStack(f, remaining, ready);
      remaining := Finish(f, remaining, id);
      done := done + [id];
    }
    assert Elements(ready) == {};
  }

  /** The complaint about the items: the first repeated id, else the first unknown parent, else the
      least id on a cycle. */
  ghost function Complaint(items: seq<Item>): Option<Error> {
    var duplicate := FirstFault(items, DuplicateFault);
    if duplicate.Some? then Some(DuplicateItem(duplicate.value))
    else
      var orphan := FirstFault(items, OrphanFault(ById(items).Keys));
      if orphan.Some? then Some(Topology(orphan.value))
      else if CycleIds(ParentMap(ById(items))) != {} then Some(Topology(Cycle(Least(CycleIds(ParentMap(ById(items)))))))
      else None
  }

  lemma LeftoverIds(f: Parents, left: set<Id>)
    requires forall x :: x in left <==> x in f && OnCycle(f, x)
    ensures left == CycleIds(f) && (left == {} <==> Acyclic(f))
  {
    FaultFree(f);
  }

  lemma AccumulatedEnd(f: Parents, w: map<Id, nat>, done: seq<Id>, result: map<Id, Minutes>, exact: map<Id, nat>)
    requires Closed(f) && IsPostorder(f, done) && Acyclic(f) && Accumulated(f, w, done, result, exact)
    ensures result.Keys == f.Keys && forall x :: x in f ==> result[x] == Capped(Total(f, w, x))
  {
    assert Elements(done) == f.Keys;
    forall x | x in f ensures result[x] == Capped(Total(f, w, x)) {
      assert CappedAt(result, exact, x);
      SumsDone(f, w, exact, x);
    }
  }

  /** The roll-up once ids are distinct and parents known. */
  method RollUpForest(f: Parents, ghost w: map<Id, nat>, counts: map<Id, nat>, own: map<Id, Minutes>) returns (r: Result<map<Id, Minutes>, Id>)
    requires Closed(f) && CountsChildren(f, counts) && w.Keys == f.Keys && StoresCapped(own, w)
    ensures r.Ok? <==> Acyclic(f)
    ensures r.Ok? ==> r.value.Keys == f.Keys && forall x :: x in f ==> r.value[x] == Capped(Total(f, w, x))
    ensures r.Err? ==> CycleIds(f) != {} && r.error == Least(CycleIds(f))
  {
    ghost var done, exact;
    var result, remaining;
    result, remaining, done, exact := ReduceStack(f, w, counts, own);
    ReducingEnd(f, done, remaining);
    LeftoverIds(f, remaining.Keys);
    if remaining.Keys != {} {
      return Err(Least(remaining.Keys));
    }
    AccumulatedEnd(f, w, done, result, exact);
    r := Ok(result);
  }

  /** Succeeds exactly on forests of distinct items, with the exact subtree demand capped at
      `u32::MAX`, although additions saturate one by one. */
  method RollUpExpectedDurations(items: seq<Item>) returns (r: Result<map<Id, Minutes>, Error>)
    ensures r.Ok? <==>
      Distinguished(items, IdOf) && Closed(ParentMap(ById(items))) && Acyclic(ParentMap(ById(items)))
    ensures r.Ok? ==> r.value.Keys == ById(items).Keys
    ensures r.Ok? ==> forall x :: x in ById(items) ==>
      r.value[x] as nat == if SubtreeDemand(ById(items), x) <= U32_MAX then SubtreeDemand(ById(items), x) else U32_MAX
    ensures r.Err? ==> Complaint(items) == Some(r.error)
  {
    var nodes := ById(items);
    IndexSize(items, IdOf);
    NoDuplicates(items);
    if |nodes| != |items| {
      var duplicate := FindDuplicate(items);
      if duplicate.Some? {
        return Err(DuplicateItem(duplicate.value));
      }
    }
    NoOrphansClosed(items);
    var counts := CountInOrder(items, nodes);
    if counts.Err? {
      return Err(Topology(counts.error));
    }
    var own := OwnMinutesOf(nodes, counts.value);
    var rolled := RollUpForest(ParentMap(nodes), Weights(nodes), counts.value, own);
    forall x | x in nodes ensures TrueTotal(nodes, x) == SubtreeDemand(nodes, x) {
      TrueTotalMeans(nodes, x);
    }
    r := match rolled case Ok(minutes) => Ok(minutes) case Err(x) => Err(Topology(Cycle(x)));
  }
}
