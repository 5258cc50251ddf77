/** Canonical snapshot preparation: inherited sensitivity, Inbox exclusion, orphan pruning
    and the accounting that every source item is either planned, set aside or rejected. */
module CanonicalPreparation {
  import opened Base
  import opened Forest
  import opened Indexing
  import opened Sorting

  // ---- Effective sensitivity ----

  /** The chain of `x` ends at a real root after `k` steps without meeting a sensitive item. */
  ghost predicate ClearFor(f: Parents, sensitive: set<Id>, x: Id, k: nat)
    decreases k
  {
    && x in f && x !in sensitive
    && if k == 0 then f[x].None? else f[x].Some? && ClearFor(f, sensitive, f[x].value, k - 1)
  }

  ghost predicate Clear(f: Parents, sensitive: set<Id>, x: Id) {
    exists k: nat :: ClearFor(f, sensitive, x, k)
  }

  lemma ClearStep(f: Parents, sensitive: set<Id>, x: Id)
    ensures Clear(f, sensitive, x) <==>
      x in f && x !in sensitive && (f[x].None? || Clear(f, sensitive, f[x].value))
  {
    if Clear(f, sensitive, x) {
      var k: nat :| ClearFor(f, sensitive, x, k);
      if k > 0 {
        assert ClearFor(f, sensitive, f[x].value, k - 1);
      }
    }
    if x in f && x !in sensitive {
      if f[x].None? {
        assert ClearFor(f, sensitive, x, 0);
      } else if Clear(f, sensitive, f[x].value) {
        var k: nat :| ClearFor(f, sensitive, f[x].value, k);
        assert ClearFor(f, sensitive, x, k + 1);
      }
    }
  }

  lemma {:induction false} ClearEnds(f: Parents, sensitive: set<Id>, x: Id, k: nat)
    requires ClearFor(f, sensitive, x, k)
    ensures Up(f, x, k + 1).None?
    decreases k
  {
    if k > 0 {
      ClearEnds(f, sensitive, f[x].value, k - 1);
    }
  }

  lemma CycleNotClear(f: Parents, sensitive: set<Id>, x: Id)
    requires OnCycle(f, x)
    ensures !Clear(f, sensitive, x)
  {
    if Clear(f, sensitive, x) {
      var k: nat :| ClearFor(f, sensitive, x, k);
      var n: nat :| n >= 1 && Up(f, x, n) == Some(x);
      ClearEnds(f, sensitive, x, k);
      CycleNeverEnds(f, x, n, k + 1);
    }
  }

  ghost predicate ResolvedAt(f: Parents, sensitive: set<Id>, resolved: map<Id, bool>, x: Id)
    requires x in resolved
  {
    resolved[x] <==> !Clear(f, sensitive, x)
  }

  ghost predicate Resolved(f: Parents, sensitive: set<Id>, resolved: map<Id, bool>) {
    && resolved.Keys <= f.Keys
    && forall x {:trigger ResolvedAt(f, sensitive, resolved, x)} :: x in resolved ==> ResolvedAt(f, sensitive, resolved, x)
  }

  /** `path` climbs from its first entry, one parent at a time. */
  ghost predicate Climbs(f: Parents, path: seq<Id>) {
    forall i {:trigger path[i]} :: 0 <= i < |path| ==> path[i] in f && Up(f, path[0], i) == Some(path[i])
  }

  lemma ClimbsStep(f: Parents, path: seq<Id>, id: Id)
    requires Climbs(f, path) && id in f
    requires path != [] ==> f[path[|path| - 1]] == Some(id)
    ensures Climbs(f, path + [id])
  {
    if path != [] {
      var n := |path| - 1;
      UpAdd(f, path[0], n, 1);
      assert Up(f, path[n], 1) == Up(f, id, 0);
    }
  }

  /** A climb that returns to one of its own entries has found a cycle. */
  lemma RevisitOnCycle(f: Parents, path: seq<Id>, i: nat)
    requires Climbs(f, path) && i < |path| && f[path[|path| - 1]] == Some(path[i])
    ensures OnCycle(f, path[i])
  {
    var n := |path| - 1;
    UpAdd(f, path[0], n, 1);
    assert Up(f, path[n], 1) == Up(f, path[i], 0);
    UpAdd(f, path[0], i, n + 1 - i);
    assert Up(f, path[i], n + 1 - i) == Some(path[i]);
  }

  /** Climbs from `start` until the answer for the rest of the chain is known. */
  method Climb(f: Parents, ghost sensitive: set<Id>, resolved: map<Id, bool>, start: Id) returns (path: seq<Id>, inherited: bool)
    requires Resolved(f, sensitive, resolved) && start in f && start !in resolved
    ensures path != [] && path[0] == start && Climbs(f, path) && Distinct(path)
    ensures forall i :: 0 <= i < |path| ==> path[i] !in resolved
    ensures var last := f[path[|path| - 1]];
      inherited <==> last.Some? && !Clear(f, sensitive, last.value)
  {
    path := [];
    var current := Some(start);
    while true
      invariant Climbs(f, path) && Distinct(path) && Elements(path) <= f.Keys
      invariant forall i :: 0 <= i < |path| ==> path[i] !in resolved
      invariant path == [] ==> current == Some(start)
      invariant path != [] ==> path[0] == start && current == f[path[|path| - 1]]
      decreases |f.Keys| - |path|
    {
      if current.None? {
        return path, false;
      }
      var id := current.value;
      if id in resolved {
        assert ResolvedAt(f, sensitive, resolved, id);
        return path, resolved[id];
      }
      if id !in f {
        ClearStep(f, sensitive, id);
        return path, true;
      }
      if id in path {
        var i :| 0 <= i < |path| && path[i] == id;
        RevisitOnCycle(f, path, i);
        CycleNotClear(f, sensitive, id);
        return path, true;
      }
      ClimbsStep(f, path, id);
      PushNew(path, id);
      path := path + [id];
      DistinctLength(path, f.Keys);
      current := f[id];
    }
  }

  /** Settles a climbed path from its top back down. */
  method Unwind(f: Parents, sensitive: set<Id>, known: map<Id, bool>, path: seq<Id>, above: bool) returns (resolved: map<Id, bool>)
    requires Resolved(f, sensitive, known) && path != [] && Climbs(f, path)
    requires var last := f[path[|path| - 1]]; above <==> last.Some? && !Clear(f, sensitive, last.value)
    ensures Resolved(f, sensitive, resolved)
    ensures resolved.Keys == known.Keys + Elements(path)
  {
    resolved := known;
    var inherited := above;
    var i := |path|;
    while i > 0
      invariant 0 <= i <= |path|
      invariant Resolved(f, sensitive, resolved) && resolved.Keys == known.Keys + Elements(path[i..])
      invariant i > 0 ==> (inherited <==> f[path[i - 1]].Some? && !Clear(f, sensitive, f[path[i - 1]].value))
    {
      i := i - 1;
      var id := path[i];
      ClearStep(f, sensitive, id);
      var value := id in sensitive || inherited;
      ResolvedStep(f, sensitive, resolved, id, value);
      assert path[i..] == [id] + path[i + 1..];
      resolved := resolved[id := value];
      inherited := value;
      if i > 0 {
        ClimbLink(f, path, i);
      }
    }
    assert path[0..] == path;
  }

  lemma ResolvedStep(f: Parents, sensitive: set<Id>, resolved: map<Id, bool>, id: Id, value: bool)
    requires Resolved(f, sensitive, resolved) && id in f && (value <==> !Clear(f, sensitive, id))
    ensures Resolved(f, sensitive, resolved[id := value])
  {
    var after := resolved[id := value];
    forall x | x in after ensures ResolvedAt(f, sensitive, after, x) {
      if x != id {
        assert ResolvedAt(f, sensitive, resolved, x);
      }
    }
  }

  lemma ClimbLink(f: Parents, path: seq<Id>, i: nat)
    requires Climbs(f, path) && 0 < i < |path|
    ensures path[i - 1] in f && f[path[i - 1]] == Some(path[i])
  {
    assert Up(f, path[0], i - 1) == Some(path[i - 1]);
    assert Up(f, path[0], i) == Some(path[i]);
    UpAdd(f, path[0], i - 1, 1);
    assert Up(f, path[i - 1], 1) == Some(path[i]);
    assert f[path[i - 1]].Some? && Up(f, f[path[i - 1]].value, 0) == Some(path[i]);
  }

  /** The memoised walk: an item is sensitive unless its ancestor chain ends at a real root with
      no sensitive item on it, so missing ancestors and cycles fail closed. The items are visited in
      an arbitrary order, so the result holds for every order. */
  method EffectiveSensitivity(f: Parents, sensitive: set<Id>) returns (resolved: map<Id, bool>)
    ensures resolved.Keys == f.Keys
    ensures forall x :: x in f ==> (resolved[x] <==> !Clear(f, sensitive, x))
  {
    resolved := map[];
    var todo := f.Keys;
    while todo != {}
      invariant todo <= f.Keys && f.Keys - todo <= resolved.Keys
      invariant Resolved(f, sensitive, resolved)
    {
      var start :| start in todo;
      todo := todo - {start};
      if start !in resolved {
        var path, inherited := Climb(f, sensitive, resolved, start);
        assert start in Elements(path);
        resolved := Unwind(f, sensitive, resolved, path, inherited);
      }
    }
    forall x | x in f ensures resolved[x] <==> !Clear(f, sensitive, x) {
      assert x in f.Keys - todo;
      assert ResolvedAt(f, sensitive, resolved, x);
    }
  }

  // ---- The Inbox subtree ----

  /** What the breadth-first search has found: `frontier` still has to be expanded, everything
      else in `excluded` has been, and only heirs of Inbox items were ever added. */
  ghost predicate Searching(f: Parents, inbox: set<Id>, excluded: set<Id>, frontier: seq<Id>) {
    && inbox <= excluded <= f.Keys
    && Distinct(frontier) && Elements(frontier) <= excluded
    && (forall x {:trigger Inherits(f, inbox, x)} :: x in excluded ==> Inherits(f, inbox, x))
    && (forall p {:trigger Children(f, p)} :: p in excluded && p !in Elements(frontier) ==> Children(f, p) <= excluded)
  }

  lemma PopFirst(s: seq<Id>)
    requires s != [] && Distinct(s)
    ensures Distinct(s[1..]) && Elements(s[1..]) == Elements(s) - {s[0]}
  {
    assert s == [s[0]] + s[1..];
    assert forall i, j :: 0 <= i < j < |s[1..]| ==> s[1..][i] != s[1..][j];
    assert s[0] !in s[1..];
  }

  /** Adds the unseen children of `p` to the back of the frontier, in ascending order. */
  method Expand(f: Parents, inbox: set<Id>, excluded0: set<Id>, frontier0: seq<Id>) returns (excluded: set<Id>, frontier: seq<Id>)
    requires Searching(f, inbox, excluded0, frontier0) && frontier0 != []
    ensures Searching(f, inbox, excluded, frontier)
    ensures |excluded| - |frontier| == |excluded0| - |frontier0| + 1
  {
    var p := frontier0[0];
    assert p in Elements(frontier0);
    PopFirst(frontier0);
    excluded, frontier := excluded0, frontier0[1..];
    var todo := Children(f, p);
    while todo != {}
      invariant todo <= Children(f, p) && Children(f, p) - todo <= excluded
      invariant excluded0 <= excluded <= f.Keys && inbox <= excluded
      invariant Distinct(frontier) && Elements(frontier) <= excluded && p !in Elements(frontier)
      invariant forall x {:trigger Inherits(f, inbox, x)} :: x in excluded ==> Inherits(f, inbox, x)
      invariant forall q {:trigger Children(f, q)} ::
        q in excluded && q !in Elements(frontier) && q != p ==> Children(f, q) <= excluded
      invariant |excluded| - |frontier| == |excluded0| - |frontier0| + 1
    {
      var child := Least(todo);
      todo := todo - {child};
      if child !in excluded {
        InheritsStep(f, inbox, child);
        PushNew(frontier, child);
        excluded := excluded + {child};
        frontier := frontier + [child];
      }
    }
    assert Children(f, p) - todo == Children(f, p);
  }

  /** `inbox_subtree_item_ids`: as many rounds as there are items always empty the frontier, and
      exactly the items with an Inbox ancestor-or-self are found. */
  method InboxSubtree(f: Parents, inbox: set<Id>) returns (excluded: set<Id>)
    requires inbox <= f.Keys
    ensures excluded <= f.Keys
    ensures forall x {:trigger Inherits(f, inbox, x)} :: x in excluded <==> Inherits(f, inbox, x)
  {
    excluded := inbox;
    var frontier := Ascending(inbox);
    DistinctCardinality(frontier);
    forall x | x in inbox ensures Inherits(f, inbox, x) {
      InheritsStep(f, inbox, x);
    }
    var round := 0;
    while round < |f|
      invariant 0 <= round <= |f|
      invariant Searching(f, inbox, excluded, frontier)
      invariant frontier != [] ==> |excluded| - |frontier| == round
    {
      if frontier == [] {
        break;
      }
      excluded, frontier := Expand(f, inbox, excluded, frontier);
      round := round + 1;
    }
    SubsetCardinality(excluded, f.Keys);
    assert frontier == [] by {
      assert |f| == |f.Keys|;
    }
    assert Elements(frontier) == {};
    HeirsExactly(f, inbox, excluded);
  }

  method Ascending(s: set<Id>) returns (r: seq<Id>)
    ensures Distinct(r) && Elements(r) == s
  {
    r := [];
    var todo := s;
    while todo != {}
      invariant todo <= s && Distinct(r) && Elements(r) == s - todo
    {
      var x := Least(todo);
      PushNew(r, x);
      r := r + [x];
      todo := todo - {x};
    }
  }

  // ---- Orphan pruning ----

  /** `removed` items are heirs of orphans, and what they lead to is removed or queued. */
  ghost predicate Pruning(f: Parents, removed: set<Id>, frontier: set<Id>) {
    && removed <= f.Keys && frontier <= f.Keys
    && Orphans(f) <= removed + frontier
    && (forall x {:trigger Inherits(f, Orphans(f), x)} :: x in removed + frontier ==> Inherits(f, Orphans(f), x))
    && (forall p {:trigger Children(f, p)} :: p in removed ==> Children(f, p) <= removed + frontier)
  }

  lemma PruningStep(f: Parents, removed: set<Id>, frontier: set<Id>, id: Id)
    requires Pruning(f, removed, frontier) && id in frontier
    ensures Pruning(f, removed + {id}, frontier - {id} + Children(f, id))
  {
    forall x | x in Children(f, id) ensures Inherits(f, Orphans(f), x) {
      InheritsStep(f, Orphans(f), x);
    }
  }

  lemma PruningSkip(f: Parents, removed: set<Id>, frontier: set<Id>, id: Id)
    requires Pruning(f, removed, frontier) && id in frontier && id in removed
    ensures Pruning(f, removed, frontier - {id})
  {
    assert removed + (frontier - {id}) == removed + frontier;
  }

  lemma HeirHasParent(f: Parents, x: Id)
    requires x in f && Inherits(f, Orphans(f), x)
    ensures f[x].Some?
  {
    InheritsStep(f, Orphans(f), x);
  }

  /** `prune_orphaned_items`: removes exactly the items whose accepted ancestor chain leaves the
      accepted set. Nothing is lost or rejected twice, and what stays is parent-closed. */
  method PruneOrphans(f: Parents) returns (retained: set<Id>, rejected: seq<Id>)
    ensures Distinct(rejected) && Elements(rejected) !! retained && Elements(rejected) + retained == f.Keys
    ensures forall x {:trigger Inherits(f, Orphans(f), x)} :: x in f ==> (x in rejected <==> Inherits(f, Orphans(f), x))
    ensures forall x :: x in retained ==> f[x].None? || f[x].value in retained
  {
    retained, rejected := f.Keys, [];
    var frontier := set x | x in f && f[x].Some? && f[x].value !in f;
    PruningStart(f, frontier);
    ghost var removed: set<Id> := {};
    while frontier != {}
      invariant Distinct(rejected) && Elements(rejected) == removed == f.Keys - retained && retained <= f.Keys
      invariant Pruning(f, removed, frontier)
      decreases retained, frontier
    {
      var id := Least(frontier);
      if id !in retained {
        PruningSkip(f, removed, frontier, id);
        frontier := frontier - {id};
      } else {
        assert id in removed + frontier;
        HeirHasParent(f, id);
        PruningStep(f, removed, frontier, id);
        PushNew(rejected, id);
        retained := retained - {id};
        rejected := rejected + [id];
        removed := removed + {id};
        frontier := frontier - {id} + Children(f, id);
      }
    }
    PruningEnd(f, removed);
    forall x | x in retained ensures f[x].None? || f[x].value in retained {
      InheritsStep(f, Orphans(f), x);
      assert !Inherits(f, Orphans(f), x);
      assert x !in Orphans(f) && !Orphan(f, x);
    }
  }

  lemma PruningStart(f: Parents, frontier: set<Id>)
    requires frontier == set x | x in f && f[x].Some? && f[x].value !in f
    ensures Pruning(f, {}, frontier)
  {
    assert frontier == Orphans(f);
    forall x | x in frontier ensures Inherits(f, Orphans(f), x) {
      InheritsStep(f, Orphans(f), x);
    }
  }

  lemma PruningEnd(f: Parents, removed: set<Id>)
    requires Pruning(f, removed, {})
    ensures forall x {:trigger Inherits(f, Orphans(f), x)} :: x in removed <==> Inherits(f, Orphans(f), x)
  {
    assert removed + {} == removed;
    HeirsExactly(f, Orphans(f), removed);
  }

  // ---- The whole preparation ----

  const MAX_CANONICAL_ITEMS := 10_000

  /** What mapping one item's scheduling metadata comes to. */
  datatype Verdict = Plannable | ContextOnly | Refused

  datatype CanonicalItem = CanonicalItem(id: Id, parent: Option<Id>, isSensitive: bool, inInbox: bool, verdict: Verdict)

  datatype PlannedItem = PlannedItem(parent: Option<Id>, isSensitive: bool, hasChildrenOutsidePlan: bool)

  /** `planned` by id, the ids `rejected`, and how many accepted items carry no plannable work. */
  datatype Prepared = Prepared(planned: map<Id, PlannedItem>, rejected: seq<Id>, withoutWork: nat)

  datatype PrepareError = TooManyItems | DuplicateCanonicalItem(id: Id) | AccountingOverflow

  type Nodes = map<Id, CanonicalItem>

  function ParentMap(nodes: Nodes): Parents {
    map x | x in nodes :: nodes[x].parent
  }

  function SensitiveIds(nodes: Nodes): set<Id> {
    set x | x in nodes && nodes[x].isSensitive
  }

  function InboxIds(nodes: Nodes): set<Id> {
    set x | x in nodes && nodes[x].inInbox
  }

  /** Items with an Inbox ancestor, or in the Inbox themselves. */
  ghost function InboxHeirs(nodes: Nodes): set<Id> {
    set x | x in nodes && Inherits(ParentMap(nodes), InboxIds(nodes), x)
  }

  /** Items by the way they leave the classification loop. */
  ghost function Classified(nodes: Nodes, inbox: set<Id>, verdict: Verdict): set<Id> {
    set x | x in nodes && x !in inbox && nodes[x].verdict == verdict
  }

  ghost function SetAside(nodes: Nodes, inbox: set<Id>): set<Id> {
    set x | x in nodes && (x in inbox || nodes[x].verdict.ContextOnly?)
  }

  /** The accepted items' own parent links; a parent that was not accepted is missing here. */
  function AcceptedMap(nodes: Nodes, accepted: set<Id>): Parents
    requires accepted <= nodes.Keys
  {
    map x | x in accepted :: nodes[x].parent
  }

  ghost function PlannableIds(nodes: Nodes): set<Id> {
    Classified(nodes, InboxHeirs(nodes), Plannable)
  }

  /** The accepted ancestor chain of `x` leaves the accepted set. */
  ghost predicate Unavailable(nodes: Nodes, x: Id) {
    var f := AcceptedMap(nodes, PlannableIds(nodes));
    Inherits(f, Orphans(f), x)
  }

  ghost function PlannedIds(nodes: Nodes): set<Id> {
    set x | x in PlannableIds(nodes) && !Unavailable(nodes, x)
  }

  /** Refused by the classification, or accepted below a parent that was not. */
  ghost function RejectedIds(nodes: Nodes): set<Id> {
    Classified(nodes, InboxHeirs(nodes), Refused) + set x | x in PlannableIds(nodes) && Unavailable(nodes, x)
  }

  ghost predicate HasOmittedChild(nodes: Nodes, planned: set<Id>, x: Id) {
    exists c :: c in nodes && c !in planned && nodes[c].parent == Some(x)
  }

  lemma TakeOne(c: set<Id>, todo: set<Id>, id: Id)
    requires id in todo
    ensures id in c ==> c - (todo - {id}) == c - todo + {id}
    ensures id !in c ==> c - (todo - {id}) == c - todo
  {
  }

  /** The classification's accumulators after everything but `todo` has been visited. */
  ghost predicate Filed(nodes: Nodes, inbox: set<Id>, todo: set<Id>, accepted: set<Id>, rejected: seq<Id>, withoutWork: nat) {
    && accepted == Classified(nodes, inbox, Plannable) - todo
    && Distinct(rejected) && Elements(rejected) == Classified(nodes, inbox, Refused) - todo
    && withoutWork == |SetAside(nodes, inbox) - todo|
  }

  /** Files one item under its outcome. */
  method ClassifyOne(nodes: Nodes, inbox: set<Id>, ghost todo: set<Id>, id: Id, accepted0: set<Id>, rejected0: seq<Id>, withoutWork0: nat)
    returns (accepted: set<Id>, rejected: seq<Id>, withoutWork: nat)
    requires id in todo && id in nodes && Filed(nodes, inbox, todo, accepted0, rejected0, withoutWork0)
    ensures Filed(nodes, inbox, todo - {id}, accepted, rejected, withoutWork)
  {
    accepted, rejected, withoutWork := accepted0, rejected0, withoutWork0;
    TakeOne(Classified(nodes, inbox, Plannable), todo, id);
    TakeOne(Classified(nodes, inbox, Refused), todo, id);
    TakeOne(SetAside(nodes, inbox), todo, id);
    if id in inbox || nodes[id].verdict.ContextOnly? {
      withoutWork := withoutWork + 1;
    } else if nodes[id].verdict.Plannable? {
      accepted := accepted + {id};
    } else {
      PushNew(rejected, id);
      rejected := rejected + [id];
    }
  }

  /** Visits the items in ascending order and sorts them by outcome. */
  method Classify(nodes: Nodes, inbox: set<Id>) returns (accepted: set<Id>, rejected: seq<Id>, withoutWork: nat)
    ensures accepted == Classified(nodes, inbox, Plannable)
    ensures Distinct(rejected) && Elements(rejected) == Classified(nodes, inbox, Refused)
    ensures withoutWork == |SetAside(nodes, inbox)|
  {
    accepted, rejected, withoutWork := {}, [], 0;
    var todo := nodes.Keys;
    assert SetAside(nodes, inbox) - todo == {};
    while todo != {}
      invariant todo <= nodes.Keys && Filed(nodes, inbox, todo, accepted, rejected, withoutWork)
    {
      var id := Least(todo);
      accepted, rejected, withoutWork := ClassifyOne(nodes, inbox, todo, id, accepted, rejected, withoutWork);
      todo := todo - {id};
    }
    assert SetAside(nodes, inbox) - todo == SetAside(nodes, inbox);
  }

  lemma DisjointConcat(a: seq<Id>, b: seq<Id>)
    requires Distinct(a) && Distinct(b) && Elements(a) !! Elements(b)
    ensures Distinct(a + b) && Elements(a + b) == Elements(a) + Elements(b)
  {
    forall i, j | 0 <= i < j < |a + b| ensures (a + b)[i] != (a + b)[j] {
      if i < |a| <= j {
        assert a[i] in Elements(a) && b[j - |a|] in Elements(b);
      }
    }
    assert forall x :: x in a + b <==> x in a || x in b;
  }

  lemma ClassesPartition(nodes: Nodes, inbox: set<Id>)
    ensures |Classified(nodes, inbox, Plannable)| + |SetAside(nodes, inbox)| + |Classified(nodes, inbox, Refused)| == |nodes|
  {
    var a, b, c := Classified(nodes, inbox, Plannable), SetAside(nodes, inbox), Classified(nodes, inbox, Refused);
    UnionCardinality(a, b);
    UnionCardinality(a + b, c);
    assert a + b + c == nodes.Keys;
  }

  /** Every source item is planned, set aside or rejected, and nothing is counted twice. */
  lemma Accounting(nodes: Nodes, inbox: set<Id>, planned: set<Id>, rejected: seq<Id>, pruned: seq<Id>)
    requires Distinct(rejected) && Elements(rejected) == Classified(nodes, inbox, Refused)
    requires Distinct(pruned) && Elements(pruned) !! planned && Elements(pruned) + planned == Classified(nodes, inbox, Plannable)
    ensures Distinct(rejected + pruned) && Elements(rejected + pruned) == Elements(rejected) + Elements(pruned)
    ensures |planned| + |SetAside(nodes, inbox)| + |rejected + pruned| == |nodes|
  {
    DisjointConcat(rejected, pruned);
    DistinctCardinality(rejected);
    DistinctCardinality(pruned);
    UnionCardinality(Elements(pruned), planned);
    ClassesPartition(nodes, inbox);
  }

  /** The plan agrees with the snapshot: links kept and parent-closed, sensitivity inherited,
      and a parent with an omitted child is marked. */
  ghost predicate PlansFaithfully(nodes: Nodes, planned: map<Id, PlannedItem>) {
    && planned.Keys <= nodes.Keys
    && (forall x :: x in planned ==> planned[x].parent == nodes[x].parent)
    && (forall x :: x in planned && nodes[x].parent.Some? ==> nodes[x].parent.value in planned)
    && (forall x {:trigger Clear(ParentMap(nodes), SensitiveIds(nodes), x)} :: x in planned ==>
          (planned[x].isSensitive <==> !Clear(ParentMap(nodes), SensitiveIds(nodes), x)))
    && (forall x {:trigger HasOmittedChild(nodes, planned.Keys, x)} :: x in planned ==>
          (planned[x].hasChildrenOutsidePlan <==> HasOmittedChild(nodes, planned.Keys, x)))
  }

  /** Maps the retained items into the plan. */
  method MapRetained(nodes: Nodes, sensitivity: map<Id, bool>, retained: set<Id>) returns (planned: map<Id, PlannedItem>)
    requires retained <= nodes.Keys == sensitivity.Keys
    requires forall x :: x in nodes ==> (sensitivity[x] <==> !Clear(ParentMap(nodes), SensitiveIds(nodes), x))
    requires forall x :: x in retained && nodes[x].parent.Some? ==> nodes[x].parent.value in retained
    ensures planned.Keys == retained && PlansFaithfully(nodes, planned)
  {
    var omittedParents := set c | c in nodes && c !in retained && nodes[c].parent.Some? :: nodes[c].parent.value;
    OmittedParents(nodes, retained, omittedParents);
    planned := map x | x in retained :: PlannedItem(nodes[x].parent, sensitivity[x], x in omittedParents);
    assert planned.Keys == retained;
  }

  /** The plan of a snapshot with its accounting, before the final balance check. */
  method PlanNodes(nodes: Nodes) returns (p: Prepared)
    ensures p.planned.Keys == PlannedIds(nodes)
    ensures PlansFaithfully(nodes, p.planned)
    ensures Distinct(p.rejected) && Elements(p.rejected) == RejectedIds(nodes)
    ensures |p.planned| + p.withoutWork + |p.rejected| == |nodes|
  {
    var f := ParentMap(nodes);
    var sensitivity := EffectiveSensitivity(f, SensitiveIds(nodes));
    var inbox := InboxSubtree(f, InboxIds(nodes));
    assert inbox == InboxHeirs(nodes);
    var accepted, rejected, withoutWork := Classify(nodes, inbox);
    var g := AcceptedMap(nodes, accepted);
    assert g.Keys == accepted;
    var retained, pruned := PruneOrphans(g);
    Accounting(nodes, inbox, retained, rejected, pruned);
    PlannedExactly(nodes, retained, pruned);
    forall x | x in retained && nodes[x].parent.Some? ensures nodes[x].parent.value in retained {
      assert g[x] == nodes[x].parent;
    }
    var planned := MapRetained(nodes, sensitivity, retained);
    assert |planned| == |planned.Keys|;
    p := Prepared(planned, rejected + pruned, withoutWork);
  }

  lemma OmittedParents(nodes: Nodes, planned: set<Id>, omittedParents: set<Id>)
    requires omittedParents == set c | c in nodes && c !in planned && nodes[c].parent.Some? :: nodes[c].parent.value
    ensures forall x {:trigger HasOmittedChild(nodes, planned, x)} :: x in omittedParents <==> HasOmittedChild(nodes, planned, x)
  {
    forall x: Id ensures x in omittedParents <==> HasOmittedChild(nodes, planned, x) {
      if HasOmittedChild(nodes, planned, x) {
        var c :| c in nodes && c !in planned && nodes[c].parent == Some(x);
        assert nodes[c].parent.value in omittedParents;
      }
    }
  }

  lemma PlannedExactly(nodes: Nodes, retained: set<Id>, pruned: seq<Id>)
    requires var f := AcceptedMap(nodes, PlannableIds(nodes));
      && Elements(pruned) !! retained && Elements(pruned) + retained == f.Keys
      && forall x {:trigger Inherits(f, Orphans(f), x)} :: x in f ==> (x in pruned <==> Inherits(f, Orphans(f), x))
    ensures retained == set x | x in PlannableIds(nodes) && !Unavailable(nodes, x)
    ensures Elements(pruned) == set x | x in PlannableIds(nodes) && Unavailable(nodes, x)
  {
    var f := AcceptedMap(nodes, PlannableIds(nodes));
    forall x | x in f ensures x in pruned <==> Unavailable(nodes, x) {
      assert x in pruned <==> Inherits(f, Orphans(f), x);
    }
  }

  function IdOf(item: CanonicalItem): Id {
    item.id
  }

  function ById(items: seq<CanonicalItem>): Nodes {
    Index(items, IdOf)
  }

  predicate IdOrder(a: CanonicalItem, b: CanonicalItem) {
    a.id <= b.id
  }

  lemma IdOrderTotal()
    ensures TotalPreorder(IdOrder)
  {
  }

  /** In a sorted list equal ids are neighbours, and the first pair of them has the least repeated id. */
  method FirstEqualNeighbours(sorted: seq<CanonicalItem>) returns (r: Option<Id>)
    requires SortedBy(sorted, IdOrder)
    ensures r.None? ==> Distinguished(sorted, IdOf)
    ensures r.Some? ==> LeastTwin(sorted, IdOf, r.value)
  {
    var k := 1;
    while k < |sorted|
      invariant k >= 1 && forall i :: 1 <= i < k && i < |sorted| ==> Rises(sorted, i)
    {
      if sorted[k - 1].id == sorted[k].id {
        FirstPairIsLeast(sorted, k);
        return Some(sorted[k].id);
      }
      assert IdOrder(sorted[k - 1], sorted[k]);
      k := k + 1;
    }
    forall i, j | 0 <= i < j < |sorted| ensures IdOf(sorted[i]) != IdOf(sorted[j]) {
      Rising(sorted, |sorted|, i, j);
    }
    return None;
  }

  ghost predicate Rises(items: seq<CanonicalItem>, i: nat)
    requires 1 <= i < |items|
  {
    items[i - 1].id < items[i].id
  }

  lemma {:induction false} Rising(items: seq<CanonicalItem>, k: nat, i: nat, j: nat)
    requires i < j < k <= |items| && forall i :: 1 <= i < k ==> Rises(items, i)
    ensures items[i].id < items[j].id
    decreases j - i
  {
    assert Rises(items, j);
    if i < j - 1 {
      Rising(items, k, i, j - 1);
    }
  }

  lemma FirstPairIsLeast(sorted: seq<CanonicalItem>, k: nat)
    requires SortedBy(sorted, IdOrder) && 1 <= k < |sorted| && sorted[k - 1].id == sorted[k].id
    requires forall i :: 1 <= i < k ==> Rises(sorted, i)
    ensures LeastTwin(sorted, IdOf, sorted[k].id)
  {
    assert IdOf(sorted[k - 1]) == IdOf(sorted[k]);
    forall y | Twin(sorted, IdOf, y) ensures sorted[k].id <= y {
      var i, j :| 0 <= i < j < |sorted| && IdOf(sorted[i]) == y && IdOf(sorted[j]) == y;
      if j < k {
        Rising(sorted, k, i, j);
      } else {
        assert j == k || IdOrder(sorted[k], sorted[j]);
      }
    }
  }

  /** `prepare_canonical_schedule`, from the validated items to the balance check. Sorting brings
      equal ids together; the check compares three counts with the number of source items and can
      never fail. */
  method PrepareCanonicalSchedule(items: seq<CanonicalItem>) returns (r: Result<Prepared, PrepareError>)
    ensures r.Ok? <==> |items| <= 10_000 && Distinguished(items, IdOf)
    ensures |items| > 10_000 ==> r == Err(TooManyItems)
    ensures |items| <= 10_000 && r.Err? ==> r.error.DuplicateCanonicalItem? && LeastTwin(items, IdOf, r.error.id)
    ensures r.Ok? ==> |r.value.planned| + r.value.withoutWork + |r.value.rejected| == |items|
    ensures r.Ok? ==> PlansFaithfully(ById(items), r.value.planned)
    ensures r.Ok? ==> r.value.planned.Keys == PlannedIds(ById(items))
    ensures r.Ok? ==> Distinct(r.value.rejected) && Elements(r.value.rejected) == RejectedIds(ById(items))
  {
    if |items| > MAX_CANONICAL_ITEMS {
      return Err(TooManyItems);
    }
    var sorted := Sort(items, IdOrder);
    IdOrderTotal();
    SortSorts(items, IdOrder);
    var duplicate := FirstEqualNeighbours(sorted);
    if duplicate.Some? {
      SortedTwin(items, sorted, duplicate.value);
      return Err(DuplicateCanonicalItem(duplicate.value));
    }
    IndexPermutes(sorted, items, IdOf);
    IndexSize(items, IdOf);
    var p := PlanNodes(ById(sorted));
    var balanced := |p.planned| + p.withoutWork + |p.rejected| == |items|;
    r := if balanced then Ok(p) else Err(AccountingOverflow);
  }

  lemma SortedTwin(items: seq<CanonicalItem>, sorted: seq<CanonicalItem>, x: Id)
    requires multiset(items) == multiset(sorted) && LeastTwin(sorted, IdOf, x)
    ensures LeastTwin(items, IdOf, x) && !Distinguished(items, IdOf)
  {
    forall y ensures Twin(items, IdOf, y) <==> Twin(sorted, IdOf, y) {
      TwinsPermute(items, sorted, IdOf, y);
    }
    NoTwins(items, IdOf);
  }
}
