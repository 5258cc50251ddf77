/** What the completion engine promises of one evaluation: it is exactly the self-consistent
    family of decisions, its counts are declarative, and automatic completion has an exact condition. */
module HierarchyCompletionLaws {
  import opened Base
  import opened Forest
  import opened Indexing
  import opened HierarchyCompletion

  // ---- Evaluations are the self-consistent families of decisions ----

  ghost predicate DecidedAt(nodes: Items, root: Option<Id>, decisions: map<Id, Decision>, x: Id)
    requires x in nodes && x in decisions
  {
    DecisionFor(nodes, root, decisions, x) == Ok(decisions[x])
  }

  /** Every decision follows from the decisions about its required descendants. */
  ghost predicate Consistent(nodes: Items, root: Option<Id>, decisions: map<Id, Decision>) {
    && decisions.Keys <= nodes.Keys
    && forall x {:trigger DecidedAt(nodes, root, decisions, x)} :: x in decisions ==> DecidedAt(nodes, root, decisions, x)
  }

  lemma RequiredDescendantsWithin(nodes: Items, done: seq<Id>, x: Id)
    requires Settled(nodes, done) && x in Elements(done)
    ensures RequiredDescendants(nodes, x) <= Elements(done)
  {
    RequiredSettled(nodes, done);
    SubtreeWithin(RequiredMap(nodes), done, x);
  }

  /** A decision depends only on the decisions about required descendants. */
  lemma DecisionFrame(nodes: Items, root: Option<Id>, before: map<Id, Decision>, after: map<Id, Decision>, x: Id)
    requires x in nodes
    requires forall d :: d in RequiredDescendants(nodes, x) ==>
      (d in before <==> d in after) && (d in before ==> CategoryOf(before[d]) == CategoryOf(after[d]))
    ensures DecisionFor(nodes, root, before, x) == DecisionFor(nodes, root, after, x)
  {
    TallyFrame(RequiredDescendants(nodes, x), before, after);
  }

  ghost function Restricted(decisions: map<Id, Decision>, s: set<Id>): map<Id, Decision> {
    map x | x in decisions && x in s :: decisions[x]
  }

  /** `decisions` agrees with `step` at position `i`, when only earlier decisions are known. */
  ghost predicate Follows(step: Step, order: seq<Id>, decisions: map<Id, Decision>, i: nat)
    requires i < |order|
  {
    order[i] in decisions && step(Restricted(decisions, Elements(order[..i])), order[i]) == Ok(decisions[order[i]])
  }

  ghost predicate FollowsTo(step: Step, order: seq<Id>, decisions: map<Id, Decision>, k: nat)
    requires k <= |order|
  {
    forall i {:trigger Follows(step, order, decisions, i)} :: 0 <= i < k ==> Follows(step, order, decisions, i)
  }

  lemma {:induction false} FollowsDecides(step: Step, order: seq<Id>, decisions: map<Id, Decision>, k: nat)
    requires k <= |order| && FollowsTo(step, order, decisions, k)
    ensures DecideAll(step, order, k) == Ok(Restricted(decisions, Elements(order[..k])))
  {
    if k == 0 {
      assert Restricted(decisions, Elements(order[..0])) == map[];
    } else {
      FollowsDecides(step, order, decisions, k - 1);
      TakeNext(order, k - 1);
      var c := order[k - 1];
      assert Follows(step, order, decisions, k - 1);
      var done := Elements(order[..k - 1]);
      assert Restricted(decisions, done)[c := decisions[c]] == Restricted(decisions, done + {c});
    }
  }

  lemma FollowsDecidesAll(step: Step, order: seq<Id>, decisions: map<Id, Decision>)
    requires FollowsTo(step, order, decisions, |order|) && decisions.Keys == Elements(order)
    ensures DecideAll(step, order, |order|) == Ok(decisions)
  {
    FollowsDecides(step, order, decisions, |order|);
    assert order[..|order|] == order;
    assert Restricted(decisions, Elements(order)) == decisions;
  }

  /** A later decision about another id changes nothing at an earlier position. */
  lemma FollowsExtend(step: Step, order: seq<Id>, decisions: map<Id, Decision>, c: Id, d: Decision, i: nat)
    requires i < |order| && Follows(step, order, decisions, i)
    requires c != order[i] && c !in Elements(order[..i])
    ensures Follows(step, order, decisions[c := d], i)
  {
    assert Restricted(decisions, Elements(order[..i])) == Restricted(decisions[c := d], Elements(order[..i]));
  }

  lemma FollowsNext(step: Step, order: seq<Id>, decisions: map<Id, Decision>, k: nat)
    requires k < |order| && decisions.Keys == Elements(order[..k]) && order[k] !in decisions
    requires step(decisions, order[k]).Ok?
    ensures Follows(step, order, decisions[order[k] := step(decisions, order[k]).value], k)
  {
    assert Restricted(decisions[order[k] := step(decisions, order[k]).value], Elements(order[..k])) == decisions;
  }

  lemma {:induction false} DecidesFollows(step: Step, order: seq<Id>, k: nat)
    requires k <= |order| && Distinct(order) && DecideAll(step, order, k).Ok?
    ensures var decisions := DecideAll(step, order, k).value;
      decisions.Keys == Elements(order[..k]) && FollowsTo(step, order, decisions, k)
  {
    if k > 0 {
      DecidesFollows(step, order, k - 1);
      TakeNext(order, k - 1);
      var before := DecideAll(step, order, k - 1).value;
      var c := order[k - 1];
      var after := before[c := step(before, c).value];
      forall i | 0 <= i < k - 1 ensures Follows(step, order, after, i) {
        assert Follows(step, order, before, i);
        FollowsExtend(step, order, before, c, step(before, c).value, i);
      }
      FollowsNext(step, order, before, k - 1);
    }
  }

  lemma FewNodesNeverOverflow(nodes: Items, done: set<Id>, c: Id)
    requires c in nodes && |nodes| <= I64_MAX
    ensures !Overflows(nodes, done, c)
  {
    if nodes[c].parent.Some? {
      var branches := Branches(RequiredMap(nodes), done + {c}, nodes[c].parent.value);
      assert branches <= nodes.Keys;
      SubsetCardinality(branches, nodes.Keys);
    }
  }

  lemma NextDescendantsFinished(nodes: Items, order: seq<Id>, k: nat)
    requires Settled(nodes, order) && k < |order|
    ensures order[k] in nodes && RequiredDescendants(nodes, order[k]) <= Elements(order[..k])
  {
    SettledPrefix(nodes, order, k + 1);
    NextIsFinishable(nodes, order, k);
    RequiredDescendantsWithin(nodes, order[..k + 1], order[k]);
  }

  /** Following the step function at `i` and being decided there are the same thing. */
  lemma FollowsIffDecided(nodes: Items, root: Option<Id>, order: seq<Id>, decisions: map<Id, Decision>, i: nat)
    requires Settled(nodes, order) && i < |order| && decisions.Keys == Elements(order) == nodes.Keys
    ensures Follows(StepFor(nodes, root), order, decisions, i) ==> DecidedAt(nodes, root, decisions, order[i])
    ensures |nodes| <= I64_MAX && DecidedAt(nodes, root, decisions, order[i]) ==> Follows(StepFor(nodes, root), order, decisions, i)
  {
    var c := order[i];
    var earlier := Restricted(decisions, Elements(order[..i]));
    assert c in Elements(order);
    NextDescendantsFinished(nodes, order, i);
    assert forall d :: d in Elements(order[..i]) ==> d in Elements(order);
    DecisionFrame(nodes, root, earlier, decisions, c);
    assert StepFor(nodes, root)(earlier, c) == DecideOne(nodes, root, earlier, c);
    if |nodes| <= I64_MAX {
      FewNodesNeverOverflow(nodes, earlier.Keys, c);
    }
  }

  /** Items that pass indexing and whose topology is sound. */
  ghost predicate Admitted(items: seq<Item>) {
    IndexError(items).None? && Fault(ParentMap(ById(items))).None?
  }

  lemma AdmittedSettled(items: seq<Item>)
    requires Admitted(items)
    ensures var nodes := ById(items); var order := LeastFirst(ParentMap(nodes), |nodes|);
      Settled(nodes, order) && Elements(order) == nodes.Keys
  {
    var nodes := ById(items);
    var f := ParentMap(nodes);
    FaultFree(f);
    assert f.Keys == nodes.Keys && |f| == |nodes|;
    LeastFirstPostorder(f, |f|);
  }

  /** A successful evaluation decides every node, each consistently with its required descendants. */
  lemma EvaluationConsistent(items: seq<Item>, scope: Scope)
    requires Evaluation(items, scope).Ok?
    ensures Admitted(items) && ScopeRoot(ById(items), scope).Ok?
    ensures var decisions := Evaluation(items, scope).value;
      && decisions.Keys == ById(items).Keys
      && Consistent(ById(items), ScopeRoot(ById(items), scope).value, decisions)
  {
    var nodes := ById(items);
    var root := ScopeRoot(nodes, scope).value;
    var decisions := Evaluation(items, scope).value;
    AdmittedSettled(items);
    var order := LeastFirst(ParentMap(nodes), |nodes|);
    DecidesFollows(StepFor(nodes, root), order, |order|);
    assert order[..|order|] == order;
    FollowingConsistent(nodes, root, order, decisions);
  }

  lemma FollowingConsistent(nodes: Items, root: Option<Id>, order: seq<Id>, decisions: map<Id, Decision>)
    requires Settled(nodes, order) && decisions.Keys == Elements(order) == nodes.Keys
    requires FollowsTo(StepFor(nodes, root), order, decisions, |order|)
    ensures Consistent(nodes, root, decisions)
  {
    forall x | x in decisions ensures DecidedAt(nodes, root, decisions, x) {
      var i :| 0 <= i < |order| && order[i] == x;
      assert Follows(StepFor(nodes, root), order, decisions, i);
      FollowsIffDecided(nodes, root, order, decisions, i);
    }
  }

  lemma ConsistentFollowing(nodes: Items, root: Option<Id>, order: seq<Id>, decisions: map<Id, Decision>)
    requires Settled(nodes, order) && decisions.Keys == Elements(order) == nodes.Keys
    requires Consistent(nodes, root, decisions) && |nodes| <= I64_MAX
    ensures FollowsTo(StepFor(nodes, root), order, decisions, |order|)
  {
    forall i | 0 <= i < |order| ensures Follows(StepFor(nodes, root), order, decisions, i) {
      assert order[i] in Elements(order);
      assert DecidedAt(nodes, root, decisions, order[i]);
      FollowsIffDecided(nodes, root, order, decisions, i);
    }
  }

  /** Conversely, a consistent family of decisions is what the evaluation returns.
      (A Rust slice never holds more than `isize::MAX` items.) */
  lemma ConsistentIsEvaluation(items: seq<Item>, scope: Scope, decisions: map<Id, Decision>)
    requires Admitted(items) && ScopeRoot(ById(items), scope).Ok? && |items| <= I64_MAX
    requires decisions.Keys == ById(items).Keys
    requires Consistent(ById(items), ScopeRoot(ById(items), scope).value, decisions)
    ensures Evaluation(items, scope) == Ok(decisions)
  {
    var nodes := ById(items);
    var root := ScopeRoot(nodes, scope).value;
    AdmittedSettled(items);
    IndexSize(items, IdOf);
    var order := LeastFirst(ParentMap(nodes), |nodes|);
    ConsistentFollowing(nodes, root, order, decisions);
    FollowsDecidesAll(StepFor(nodes, root), order, decisions);
  }

  // ---- Counts and automatic completion ----

  /** How many of `s` there are, how many of them are proven and completed, proven and not completed,
      and unproven. */
  ghost predicate CountsMembers(counts: Counts, s: set<Id>, decisions: map<Id, Decision>) {
    && counts.required == |s|
    && counts.completed == |set d | d in s && d in decisions && !decisions[d].evidenceRequired && decisions[d].status.Completed?|
    && counts.incomplete == |set d | d in s && d in decisions && !decisions[d].evidenceRequired && !decisions[d].status.Completed?|
    && counts.evidence == |set d | d in s && d in decisions && decisions[d].evidenceRequired|
  }

  lemma TallyCounts(s: set<Id>, decisions: map<Id, Decision>)
    ensures CountsMembers(Tally(s, decisions), s, decisions)
  {
    assert InCategory(s, decisions, Done) ==
      set d | d in s && d in decisions && !decisions[d].evidenceRequired && decisions[d].status.Completed?;
    assert InCategory(s, decisions, Unmet) ==
      set d | d in s && d in decisions && !decisions[d].evidenceRequired && !decisions[d].status.Completed?;
    assert InCategory(s, decisions, NoEvidence) == set d | d in s && d in decisions && decisions[d].evidenceRequired;
  }

  /** Every node's counts are the declarative counts over its required descendants at any depth,
      and the three categories partition the total. */
  lemma CountsAreDeclarative(items: seq<Item>, scope: Scope, x: Id)
    requires Evaluation(items, scope).Ok? && x in ById(items)
    ensures x in Evaluation(items, scope).value
    ensures var decisions := Evaluation(items, scope).value; var counts := decisions[x].counts;
      && CountsMembers(counts, RequiredDescendants(ById(items), x), decisions)
      && counts.required == counts.completed + counts.incomplete + counts.evidence
  {
    EvaluationConsistent(items, scope);
    var nodes := ById(items);
    var root := ScopeRoot(nodes, scope).value;
    var decisions := Evaluation(items, scope).value;
    assert DecidedAt(nodes, root, decisions, x);
    var s := RequiredDescendants(nodes, x);
    DecideKeepsCounts(nodes[x], Tally(s, decisions), Unproven(nodes, root, x), HasChildren(nodes, x));
    TallyPartition(s, decisions);
    TallyCounts(s, decisions);
  }

  lemma CountIsWhole(s: set<Id>, decisions: map<Id, Decision>)
    requires s <= decisions.Keys
    ensures Tally(s, decisions).completed == |s| <==> forall d :: d in s ==> CategoryOf(decisions[d]) == Done
  {
    var done := InCategory(s, decisions, Done);
    if |done| == |s| && done != s {
      ProperSubsetSmaller(done, s);
    }
    if forall d :: d in s ==> CategoryOf(decisions[d]) == Done {
      assert done == s;
    }
    if done == s {
      forall d | d in s ensures CategoryOf(decisions[d]) == Done {
        assert d in done;
      }
    }
  }

  lemma ReadyWhenAllDone(counts: Counts)
    requires counts.required == counts.completed + counts.incomplete + counts.evidence
    ensures ReadinessOf(counts, false).AllRequiredDescendantsCompleted? <==> counts.required > 0 && counts.completed == counts.required
  {
  }

  /** A proven parent without an override is decided Completed exactly when it has required
      descendants and all of them, at any depth, are proven and decided Completed. */
  lemma AutomaticCompletionIff(items: seq<Item>, scope: Scope, x: Id)
    requires Evaluation(items, scope).Ok? && x in ById(items)
    requires ById(items)[x].manualOverride.Automatic? && HasChildren(ById(items), x)
    requires !Unproven(ById(items), ScopeRoot(ById(items), scope).value, x)
    ensures var decisions := Evaluation(items, scope).value; var s := RequiredDescendants(ById(items), x);
      && x in decisions && s <= decisions.Keys
      && (decisions[x].status.Completed? <==>
            s != {} && forall d :: d in s ==> !decisions[d].evidenceRequired && decisions[d].status.Completed?)
  {
    EvaluationConsistent(items, scope);
    var nodes := ById(items);
    var root := ScopeRoot(nodes, scope).value;
    var decisions := Evaluation(items, scope).value;
    var s := RequiredDescendants(nodes, x);
    assert DecidedAt(nodes, root, decisions, x);
    TallyPartition(s, decisions);
    CountIsWhole(s, decisions);
    ReadyWhenAllDone(Tally(s, decisions));
    IndexedProvenance(items, x);
    AutomaticDecision(nodes[x], Tally(s, decisions));
    assert forall d :: d in s ==> (CategoryOf(decisions[d]) == Done <==> !decisions[d].evidenceRequired && decisions[d].status.Completed?);
  }

  lemma AutomaticDecision(item: Item, counts: Counts)
    requires item.manualOverride.Automatic? && ValidProvenance(item)
    ensures var d := Decide(item, counts, false, true);
      d.Ok? ==> (d.value.status.Completed? <==> ReadinessOf(counts, false).AllRequiredDescendantsCompleted?)
  {
  }

  lemma IndexedProvenance(items: seq<Item>, x: Id)
    requires IndexError(items).None? && x in ById(items)
    ensures ValidProvenance(ById(items)[x])
  {
    var i := IndexOrigin(items, IdOf, x);
    FaultlessAt(items, i, ItemFault);
  }
}
