/** Caller-supplied lifecycle of individual recurrence members: the tree check on each
    occurrence and the all-or-nothing overlay on a materialized plan. */
module OccurrenceLifecycle {
  import opened Base
  import opened Forest
  import opened Indexing

  const MAX_MEMBERS := 10_000

  datatype WorkStatus = NotStarted | Scheduled | Active | Paused | Completed | Skipped | Canceled | Blocked
  {
    predicate Terminal() {
      Completed? || Skipped? || Canceled?
    }
  }

  /** A generated occurrence's own identity; the overlay only compares it. */
  datatype Identity = Identity(key: nat)

  datatype Member = Member(id: Id, parent: Option<Id>, sourceRevision: nat, status: WorkStatus)

  datatype Instance = Instance(rootId: Id, occurrenceId: Id, identity: Identity, members: seq<Member>)

  datatype Context = Context(snapshotRevision: nat, instances: seq<Instance>)

  datatype Error =
    | InvalidSnapshotRevision
    | TooLarge
    | InvalidInstance(occurrence: Id)
    | DuplicateInstance(occurrence: Id)
    | InvalidMember(occurrence: Id, item: Id)
    | DuplicateMember(occurrence: Id, item: Id)
    | InvalidHierarchy(occurrence: Id)
    | OccurrenceMismatch(occurrence: Id)
    | SourceMismatch(occurrence: Id, item: Id)
    | MissingMember(occurrence: Id, item: Id)
    | ExecutionConflict(occurrence: Id, item: Id)

  type Members = map<Id, Member>

  function ParentMap(members: Members): Parents {
    map x | x in members :: members[x].parent
  }

  // ---- The member tree ----

  /** Counts children in ascending order, refusing unknown parents and second roots. */
  method CountMembers(f: Parents, root: Id) returns (r: Option<map<Id, nat>>)
    ensures r.Some? <==> Closed(f) && OnlyRoot(f, root)
    ensures r.Some? ==> CountsChildren(f, r.value)
  {
    var counts: map<Id, nat> := map id | id in f :: 0;
    CountsSeenStart(f, counts);
    var todo := f.Keys;
    ghost var seen: set<Id> := {};
    while todo != {}
      invariant todo !! seen && todo + seen == f.Keys
      invariant forall y, z :: y in seen && z in todo ==> y < z
      invariant CountsSeen(f, seen, counts)
      invariant forall y :: y in seen ==> !Orphan(f, y)
      invariant forall y {:trigger f[y]} :: y in seen && f[y].None? ==> y == root
    {
      var id := Least(todo);
      AscendingStep(f.Keys, seen, todo);
      todo := todo - {id};
      if f[id].Some? {
        if f[id].value !in counts {
          assert Orphan(f, id);
          return None;
        }
      } else if id != root {
        return None;
      }
      CountsSeenStep(f, seen, counts, id);
      counts := AddChild(counts, f[id]);
      seen := seen + {id};
    }
    CountsSeenAll(f, counts);
    assert Closed(f) by {
      forall x ensures !Orphan(f, x) {
        assert x in f ==> x in seen;
      }
    }
    r := Some(counts);
  }

  /** `validate_member_tree`: accepts exactly the trees under the named root. */
  method ValidateMemberTree(rootId: Id, members: Members) returns (valid: bool)
    ensures valid <==> IsTree(ParentMap(members), rootId)
  {
    var f := ParentMap(members);
    if rootId !in members || members[rootId].parent.Some? {
      return false;
    }
    TreeIff(f, rootId);
    var counts := CountMembers(f, rootId);
    if counts.None? {
      return false;
    }
    var children := counts.value;
    var ready := InitialStack(children);
    ghost var done: seq<Id> := [];
    ReducingStart(f, children, Elements(ready));
    while ready != []
      invariant Distinct(ready) && Reducing(f, done, children, Elements(ready))
      decreases children.Keys
    {
      var id := ready[|ready| - 1];
      StackStep(f, done, children, ready);
      ready := NextStack(f, children, ready);
      children := Finish(f, children, id);
      done := done + [id];
    }
    assert Elements(ready) == {};
    ReducingEnd(f, done, children);
    FaultFree(f);
    if children.Keys != {} {
      var x :| x in children.Keys;
      assert OnCycle(f, x) && x in f;
      return false;
    }
    return true;
  }

  // ---- Indexing one instance and the whole context ----

  predicate ValidMember(m: Member) {
    && m.id != NIL && m.parent != Some(NIL)
    && 1 <= m.sourceRevision <= I64_MAX
    && !m.status.Active? && !m.status.Paused?
  }

  function MemberId(m: Member): Id {
    m.id
  }

  function ByMember(members: seq<Member>): Members {
    Index(members, MemberId)
  }

  ghost predicate ValidMembers(instance: Instance) {
    && (forall i :: 0 <= i < |instance.members| ==> ValidMember(instance.members[i]))
    && Distinguished(instance.members, MemberId)
    && IsTree(ParentMap(ByMember(instance.members)), instance.rootId)
  }

  /** The complaint about a member, given the members before it. */
  ghost function MemberFault(occurrence: Id): (seq<Member>, Member) -> Option<Error> {
    (earlier, m) =>
      if !ValidMember(m) then Some(InvalidMember(occurrence, m.id))
      else if Has(earlier, MemberId, m.id) then Some(DuplicateMember(occurrence, m.id))
      else None
  }

  /** The first bad member in list order, and only then the shape of the tree. */
  ghost function MembersFault(instance: Instance): Option<Error> {
    var fault := FirstFault(instance.members, MemberFault(instance.occurrenceId));
    if fault.Some? then fault
    else if !IsTree(ParentMap(ByMember(instance.members)), instance.rootId) then Some(InvalidHierarchy(instance.occurrenceId))
    else None
  }

  lemma MembersFaultIff(instance: Instance)
    ensures MembersFault(instance).None? <==> ValidMembers(instance)
  {
    var ms, fault := instance.members, MemberFault(instance.occurrenceId);
    if FirstFault(ms, fault).None? {
      FaultlessDistinguished(ms, MemberId, fault);
      forall i | 0 <= i < |ms| ensures ValidMember(ms[i]) {
        FaultlessAt(ms, i, fault);
      }
    } else {
      var i := FaultOrigin(ms, fault);
      if Distinguished(ms, MemberId) {
        DistinguishedBefore(ms, MemberId, i);
      }
    }
  }

  method IndexMembers(instance: Instance) returns (r: Result<Members, Error>)
    ensures r.Ok? <==> ValidMembers(instance)
    ensures r.Ok? ==> r.value == ByMember(instance.members)
    ensures r.Err? ==> MembersFault(instance) == Some(r.error)
  {
    var ms := instance.members;
    ghost var fault := MemberFault(instance.occurrenceId);
    MembersFaultIff(instance);
    var members: Members := map[];
    for i := 0 to |ms|
      invariant members == ByMember(ms[..i]) && FirstFault(ms[..i], fault).None?
    {
      IndexNext(ms, i, MemberId, fault);
      var m := ms[i];
      if m.id == NIL || m.parent == Some(NIL) || m.sourceRevision == 0 || m.sourceRevision > I64_MAX || m.status.Active? || m.status.Paused? {
        return Err(InvalidMember(instance.occurrenceId, ms[i].id));
      }
      if ms[i].id in members {
        return Err(DuplicateMember(instance.occurrenceId, ms[i].id));
      }
      members := members[ms[i].id := ms[i]];
    }
    assert ms[..|ms|] == ms;
    var valid := ValidateMemberTree(instance.rootId, members);
    if !valid {
      return Err(InvalidHierarchy(instance.occurrenceId));
    }
    r := Ok(members);
  }

  predicate Named(instance: Instance) {
    instance.rootId != NIL && instance.occurrenceId != NIL && instance.members != []
  }

  ghost predicate ValidInstance(instance: Instance) {
    Named(instance) && ValidMembers(instance)
  }

  function OccurrenceOf(instance: Instance): Id {
    instance.occurrenceId
  }

  function ByOccurrence(instances: seq<Instance>): map<Id, Instance> {
    Index(instances, OccurrenceOf)
  }

  /** The complaint about an instance, given the instances before it. */
  ghost function InstanceFault(earlier: seq<Instance>, instance: Instance): Option<Error> {
    if !Named(instance) then Some(InvalidInstance(instance.occurrenceId))
    else if MembersFault(instance).Some? then MembersFault(instance)
    else if Has(earlier, OccurrenceOf, instance.occurrenceId) then Some(DuplicateInstance(instance.occurrenceId))
    else None
  }

  ghost function MemberTotal(instances: seq<Instance>, n: nat): nat
    requires n <= |instances|
  {
    if n == 0 then 0 else MemberTotal(instances, n - 1) + |instances[n - 1].members|
  }

  ghost predicate ValidContext(context: Context) {
    && context.snapshotRevision <= I64_MAX
    && (context.snapshotRevision == 0 ==> context.instances == [])
    && |context.instances| <= 10_000
    && MemberTotal(context.instances, |context.instances|) <= 10_000
    && (forall i :: 0 <= i < |context.instances| ==> ValidInstance(context.instances[i]))
    && Distinguished(context.instances, OccurrenceOf)
  }

  /** The revision first, then the shared budget, then the first bad instance in list order. */
  ghost function ContextFault(context: Context): Option<Error> {
    if context.snapshotRevision > I64_MAX || (context.snapshotRevision == 0 && context.instances != []) then Some(InvalidSnapshotRevision)
    else if |context.instances| > 10_000 || MemberTotal(context.instances, |context.instances|) > 10_000 then Some(TooLarge)
    else FirstFault(context.instances, InstanceFault)
  }

  lemma InstancesFaultIff(instances: seq<Instance>)
    ensures FirstFault(instances, InstanceFault).None? <==>
      (forall i :: 0 <= i < |instances| ==> ValidInstance(instances[i])) && Distinguished(instances, OccurrenceOf)
  {
    if FirstFault(instances, InstanceFault).None? {
      FaultlessDistinguished(instances, OccurrenceOf, InstanceFault);
      forall i | 0 <= i < |instances| ensures ValidInstance(instances[i]) {
        FaultlessAt(instances, i, InstanceFault);
        MembersFaultIff(instances[i]);
      }
    } else {
      var i := FaultOrigin(instances, InstanceFault);
      MembersFaultIff(instances[i]);
      if Distinguished(instances, OccurrenceOf) {
        DistinguishedBefore(instances, OccurrenceOf, i);
      }
    }
  }

  lemma {:induction false} MemberTotalGrows(instances: seq<Instance>, m: nat, n: nat)
    requires m <= n <= |instances|
    ensures MemberTotal(instances, m) <= MemberTotal(instances, n)
  {
    if m < n {
      MemberTotalGrows(instances, m, n - 1);
    }
  }

  /** The shared budget: refused as soon as a running total exceeds it, which is the same as
      the whole total exceeding it. */
  method WithinBudget(instances: seq<Instance>) returns (within: bool)
    ensures within <==> |instances| <= MAX_MEMBERS && MemberTotal(instances, |instances|) <= MAX_MEMBERS
  {
    if |instances| > MAX_MEMBERS {
      return false;
    }
    var total := 0;
    for i := 0 to |instances|
      invariant total == MemberTotal(instances, i) <= MAX_MEMBERS
    {
      total := total + |instances[i].members|;
      if total > MAX_MEMBERS {
        MemberTotalGrows(instances, i + 1, |instances|);
        return false;
      }
    }
    return true;
  }

  /** Checks one instance, given the index of the instances before it. */
  method CheckListed(instance: Instance, ghost earlier: seq<Instance>, indexed: map<Id, Instance>) returns (r: Option<Error>)
    requires indexed == ByOccurrence(earlier)
    ensures r == InstanceFault(earlier, instance)
  {
    if instance.rootId == NIL || instance.occurrenceId == NIL || instance.members == [] {
      return Some(InvalidInstance(instance.occurrenceId));
    }
    var members := IndexMembers(instance);
    MembersFaultIff(instance);
    if members.Err? {
      return Some(members.error);
    }
    IndexDomain(earlier, OccurrenceOf, instance.occurrenceId);
    if instance.occurrenceId in indexed {
      return Some(DuplicateInstance(instance.occurrenceId));
    }
    return None;
  }

  /** Indexes the instances by occurrence, or reports the first fault in list order. */
  method IndexInstances(instances: seq<Instance>) returns (r: Result<map<Id, Instance>, Error>)
    ensures r.Ok? ==> FirstFault(instances, InstanceFault).None? && r.value == ByOccurrence(instances)
    ensures r.Err? ==> FirstFault(instances, InstanceFault) == Some(r.error)
  {
    var indexed: map<Id, Instance> := map[];
    for i := 0 to |instances|
      invariant indexed == ByOccurrence(instances[..i]) && FirstFault(instances[..i], InstanceFault).None?
    {
      IndexNext(instances, i, OccurrenceOf, InstanceFault);
      var fault := CheckListed(instances[i], instances[..i], indexed);
      if fault.Some? {
        return Err(fault.value);
      }
      indexed := indexed[instances[i].occurrenceId := instances[i]];
    }
    assert instances[..|instances|] == instances;
    r := Ok(indexed);
  }

  /** `index_context`: succeeds exactly on valid contexts, and otherwise reports the first fault. */
  method IndexContext(context: Context) returns (r: Result<map<Id, Instance>, Error>)
    ensures r.Ok? <==> ValidContext(context)
    ensures r.Ok? ==> r.value == ByOccurrence(context.instances)
    ensures r.Err? ==> ContextFault(context) == Some(r.error)
  {
    if context.snapshotRevision > I64_MAX || (context.snapshotRevision == 0 && context.instances != []) {
      return Err(InvalidSnapshotRevision);
    }
    var within := WithinBudget(context.instances);
    if !within {
      return Err(TooLarge);
    }
    InstancesFaultIff(context.instances);
    r := IndexInstances(context.instances);
  }

  lemma ValidContextFault(context: Context)
    requires ValidContext(context)
    ensures ContextFault(context).None?
  {
    InstancesFaultIff(context.instances);
  }

  // ---- The overlay ----

  datatype SourceItem = SourceItem(id: Id, parent: Option<Id>, revision: nat, status: WorkStatus, hasChildrenOutsidePlan: bool)

  datatype PlanItem = PlanItem(id: Id, status: WorkStatus)

  datatype OccurrenceState = Generated | OccurrenceCompleted | OccurrencePaused | OccurrenceSkipped

  datatype Occurrence = Occurrence(seriesId: Id, identity: Identity, state: OccurrenceState)

  /** Which source item a materialized clone stands for, and in which occurrence. */
  datatype CloneOf = CloneOf(seriesId: Id, occurrenceId: Id)

  datatype ExecutionUnit = ExecutionUnit(hasReservations: bool, skipped: bool)

  /** Everything the overlay is checked against: indexed source items, generated occurrences,
      clone identities and execution units. */
  datatype Evidence = Evidence(
    source: map<Id, SourceItem>,
    occurrences: map<Id, Occurrence>,
    identities: map<Id, CloneOf>,
    execution: map<(Id, Id), ExecutionUnit>)

  function Clones(e: Evidence, series: Id, occurrence: Id): set<Id> {
    set c | c in e.identities && e.identities[c] == CloneOf(series, occurrence)
  }

  /** The greatest clone of a member, since later identities overwrite earlier ones. */
  function CloneFor(e: Evidence, series: Id, occurrence: Id): (r: Option<Id>)
    ensures r.Some? <==> Clones(e, series, occurrence) != {}
    ensures r.Some? ==> r.value in Clones(e, series, occurrence)
  {
    if Clones(e, series, occurrence) == {} then None else Some(Greatest(Clones(e, series, occurrence)))
  }

  /** An open member of a blocked template stays blocked; otherwise its own status counts. */
  function EffectiveStatus(template: WorkStatus, member: WorkStatus): WorkStatus {
    if template.Blocked? && !member.Terminal() then Blocked else member
  }

  predicate Conflicts(unit: ExecutionUnit, status: WorkStatus, member: WorkStatus) {
    || (unit.hasReservations && (status.Terminal() || status.Blocked?))
    || (unit.skipped && !member.Skipped?)
  }

  ghost predicate OmittedChildOf(e: Evidence, members: Members, x: Id) {
    exists m :: m in members && m !in e.source && members[m].parent == Some(x)
  }

  ghost predicate MemberAgrees(e: Evidence, instance: Instance, members: Members, m: Id)
    requires m in members
  {
    m in e.source ==>
      var source := e.source[m];
      && source.revision == members[m].sourceRevision
      && members[m].parent == (if m == instance.rootId then None else source.parent)
      && (source.hasChildrenOutsidePlan <==> OmittedChildOf(e, members, m))
      && CloneFor(e, m, instance.occurrenceId).Some?
      && ((m, instance.occurrenceId) in e.execution ==>
            !Conflicts(e.execution[(m, instance.occurrenceId)], EffectiveStatus(source.status, members[m].status), members[m].status))
  }

  /** The complaint about a member: its source first, then its execution. */
  ghost function Disagreement(e: Evidence, instance: Instance, members: Members, m: Id): Option<Error> {
    if m !in members || m !in e.source then None
    else
      var source := e.source[m];
      if source.revision != members[m].sourceRevision
         || members[m].parent != (if m == instance.rootId then None else source.parent)
         || (source.hasChildrenOutsidePlan <==> !OmittedChildOf(e, members, m))
         || Clones(e, m, instance.occurrenceId) == {}
      then Some(SourceMismatch(instance.occurrenceId, m))
      else if !MemberAgrees(e, instance, members, m) then Some(ExecutionConflict(instance.occurrenceId, m))
      else None
  }

  lemma DisagreementIff(e: Evidence, instance: Instance, members: Members, m: Id)
    requires m in members
    ensures Disagreement(e, instance, members, m).None? <==> MemberAgrees(e, instance, members, m)
  {
  }

  ghost function DisagreementIn(e: Evidence, instance: Instance, members: Members): Id -> Option<Error> {
    (m: Id) => Disagreement(e, instance, members, m)
  }

  /** The clones of an instance that stand for no listed member. */
  function MissingMembers(e: Evidence, instance: Instance): set<Id> {
    set c | c in e.identities && e.identities[c].occurrenceId == instance.occurrenceId
            && e.identities[c].seriesId !in ByMember(instance.members)
      :: e.identities[c].seriesId
  }

  /** The occurrence first, then its clones, then its members, each in ascending order. */
  ghost function InstanceMismatch(e: Evidence, instance: Instance): Option<Error> {
    var occurrence := instance.occurrenceId;
    var members := ByMember(instance.members);
    if occurrence !in e.occurrences || e.occurrences[occurrence] != Occurrence(instance.rootId, instance.identity, Generated)
       || !exists c :: c in e.identities && e.identities[c].occurrenceId == occurrence
    then Some(OccurrenceMismatch(occurrence))
    else if MissingMembers(e, instance) != {} then Some(MissingMember(occurrence, Least(MissingMembers(e, instance))))
    else LeastFault(members.Keys, DisagreementIn(e, instance, members))
  }

  ghost function MismatchIn(e: Evidence, indexed: map<Id, Instance>): Id -> Option<Error> {
    (o: Id) => if o in indexed then InstanceMismatch(e, indexed[o]) else None
  }

  /** The complaint about an overlay: the context, and then the least bad occurrence. */
  ghost function OverlayFault(e: Evidence, context: Context): Option<Error> {
    if ContextFault(context).Some? then ContextFault(context)
    else
      var indexed := ByOccurrence(context.instances);
      LeastFault(indexed.Keys, MismatchIn(e, indexed))
  }

  ghost predicate InstanceAgrees(e: Evidence, instance: Instance) {
    var occurrence := instance.occurrenceId;
    var members := ByMember(instance.members);
    && occurrence in e.occurrences
    && e.occurrences[occurrence] == Occurrence(instance.rootId, instance.identity, Generated)
    && (exists c :: c in e.identities && e.identities[c].occurrenceId == occurrence)
    && (forall c :: c in e.identities && e.identities[c].occurrenceId == occurrence ==> e.identities[c].seriesId in members)
    && (forall m :: m in members ==> MemberAgrees(e, instance, members, m))
  }

  /** The status that one instance gives to item `c`, if `c` is the listed clone of a planned member. */
  ghost function OverlayIn(e: Evidence, instance: Instance, c: Id): Option<WorkStatus> {
    if c in e.identities && e.identities[c].occurrenceId == instance.occurrenceId then
      var series := e.identities[c].seriesId;
      var members := ByMember(instance.members);
      if series in members && series in e.source && CloneFor(e, series, instance.occurrenceId) == Some(c)
      then Some(EffectiveStatus(e.source[series].status, members[series].status))
      else None
    else None
  }

  ghost function OverlayFor(e: Evidence, indexed: map<Id, Instance>, c: Id): Option<WorkStatus> {
    if c in e.identities && e.identities[c].occurrenceId in indexed
    then OverlayIn(e, indexed[e.identities[c].occurrenceId], c)
    else None
  }

  /** `statuses` holds the overlay of the members visited so far. */
  ghost predicate CollectedAt(e: Evidence, instance: Instance, seen: set<Id>, statuses: map<Id, WorkStatus>, c: Id) {
    if c in e.identities && e.identities[c].seriesId in seen && OverlayIn(e, instance, c).Some?
    then c in statuses && statuses[c] == OverlayIn(e, instance, c).value
    else c !in statuses
  }

  ghost predicate Collected(e: Evidence, instance: Instance, seen: set<Id>, statuses: map<Id, WorkStatus>) {
    forall c {:trigger CollectedAt(e, instance, seen, statuses, c)} :: CollectedAt(e, instance, seen, statuses, c)
  }

  lemma CollectedStep(e: Evidence, instance: Instance, seen: set<Id>, statuses: map<Id, WorkStatus>, m: Id)
    requires Collected(e, instance, seen, statuses) && m in ByMember(instance.members) && m !in seen
    requires m in e.source ==> CloneFor(e, m, instance.occurrenceId).Some?
    ensures m !in e.source ==> Collected(e, instance, seen + {m}, statuses)
    ensures m in e.source ==>
      Collected(e, instance, seen + {m},
        statuses[CloneFor(e, m, instance.occurrenceId).value :=
                 EffectiveStatus(e.source[m].status, ByMember(instance.members)[m].status)])
  {
    if m in e.source {
      var clone := CloneFor(e, m, instance.occurrenceId).value;
      var after := statuses[clone := EffectiveStatus(e.source[m].status, ByMember(instance.members)[m].status)];
      forall c ensures CollectedAt(e, instance, seen + {m}, after, c) {
        assert CollectedAt(e, instance, seen, statuses, c);
      }
    } else {
      forall c ensures CollectedAt(e, instance, seen + {m}, statuses, c) {
        assert CollectedAt(e, instance, seen, statuses, c);
      }
    }
  }

  /** Checks one member against its source item and its execution. */
  method CheckMember(e: Evidence, instance: Instance, members: Members, omittedParents: set<Id>, m: Id) returns (r: Option<Error>)
    requires members == ByMember(instance.members) && m in members
    requires forall x {:trigger OmittedChildOf(e, members, x)} :: x in omittedParents <==> OmittedChildOf(e, members, x)
    ensures r == Disagreement(e, instance, members, m)
  {
    assert m in omittedParents <==> OmittedChildOf(e, members, m);
    if m !in e.source {
      return None;
    }
    var source := e.source[m];
    var expected := if m == instance.rootId then None else source.parent;
    if source.revision != members[m].sourceRevision
       || members[m].parent != expected
       || source.hasChildrenOutsidePlan != (m in omittedParents)
       || CloneFor(e, m, instance.occurrenceId).None? {
      return Some(SourceMismatch(instance.occurrenceId, m));
    }
    var status := EffectiveStatus(source.status, members[m].status);
    if (m, instance.occurrenceId) in e.execution
       && Conflicts(e.execution[(m, instance.occurrenceId)], status, members[m].status) {
      return Some(ExecutionConflict(instance.occurrenceId, m));
    }
    return None;
  }

  /** Checks every member in ascending order and collects the statuses of their clones. */
  method CheckMembers(e: Evidence, instance: Instance, members: Members) returns (r: Result<map<Id, WorkStatus>, Error>)
    requires members == ByMember(instance.members)
    ensures r.Ok? ==> LeastFault(members.Keys, DisagreementIn(e, instance, members)).None? && Collected(e, instance, members.Keys, r.value)
    ensures r.Err? ==> LeastFault(members.Keys, DisagreementIn(e, instance, members)) == Some(r.error)
  {
    ghost var fault := DisagreementIn(e, instance, members);
    var omittedParents := set m | m in members && m !in e.source && members[m].parent.Some? :: members[m].parent.value;
    assert forall x {:trigger OmittedChildOf(e, members, x)} :: x in omittedParents <==> OmittedChildOf(e, members, x) by {
      forall x: Id ensures x in omittedParents <==> OmittedChildOf(e, members, x) {
        if OmittedChildOf(e, members, x) {
          var m :| m in members && m !in e.source && members[m].parent == Some(x);
          assert members[m].parent.value in omittedParents;
        }
      }
    }
    var statuses: map<Id, WorkStatus> := map[];
    var todo := members.Keys;
    ghost var seen: set<Id> := {};
    assert Collected(e, instance, {}, statuses);
    while todo != {}
      invariant todo !! seen && todo + seen == members.Keys && forall y, z :: y in seen && z in todo ==> y < z
      invariant forall m :: m in seen ==> fault(m).None?
      invariant Collected(e, instance, seen, statuses)
    {
      var m := Least(todo);
      FirstIsLeast(members.Keys, seen, todo, fault);
      AscendingStep(members.Keys, seen, todo);
      var found := CheckMember(e, instance, members, omittedParents, m);
      if found.Some? {
        return Err(found.value);
      }
      CollectedStep(e, instance, seen, statuses, m);
      if m in e.source {
        statuses := statuses[CloneFor(e, m, instance.occurrenceId).value := EffectiveStatus(e.source[m].status, members[m].status)];
      }
      todo := todo - {m};
      seen := seen + {m};
    }
    assert seen == members.Keys;
    Faultless(members.Keys, fault);
    r := Ok(statuses);
  }

  lemma CollectedAll(e: Evidence, instance: Instance, statuses: map<Id, WorkStatus>, c: Id)
    requires Collected(e, instance, ByMember(instance.members).Keys, statuses)
    ensures c in statuses <==> OverlayIn(e, instance, c).Some?
    ensures c in statuses ==> OverlayIn(e, instance, c) == Some(statuses[c])
  {
    assert CollectedAt(e, instance, ByMember(instance.members).Keys, statuses, c);
  }

  /** Checks one instance against its generated occurrence, its clones and its members. */
  method CheckInstance(e: Evidence, instance: Instance) returns (r: Result<map<Id, WorkStatus>, Error>)
    ensures r.Ok? ==> InstanceMismatch(e, instance).None? && Collected(e, instance, ByMember(instance.members).Keys, r.value)
    ensures r.Err? ==> InstanceMismatch(e, instance) == Some(r.error)
  {
    var occurrence := instance.occurrenceId;
    if occurrence !in e.occurrences || e.occurrences[occurrence] != Occurrence(instance.rootId, instance.identity, Generated) {
      return Err(OccurrenceMismatch(occurrence));
    }
    if !exists c :: c in e.identities && e.identities[c].occurrenceId == occurrence {
      return Err(OccurrenceMismatch(occurrence));
    }
    var missing := MissingMembers(e, instance);
    if missing != {} {
      return Err(MissingMember(occurrence, Least(missing)));
    }
    r := CheckMembers(e, instance, ByMember(instance.members));
  }

  /** No complaint is left exactly when the instance agrees with everything it is checked against. */
  lemma InstanceMismatchIff(e: Evidence, instance: Instance)
    ensures InstanceMismatch(e, instance).None? <==> InstanceAgrees(e, instance)
  {
    var members := ByMember(instance.members);
    var fault := DisagreementIn(e, instance, members);
    Faultless(members.Keys, fault);
    forall m | m in members ensures fault(m).None? <==> MemberAgrees(e, instance, members, m) {
      DisagreementIff(e, instance, members, m);
    }
    forall c | c in e.identities && e.identities[c].occurrenceId == instance.occurrenceId && e.identities[c].seriesId !in members
      ensures e.identities[c].seriesId in MissingMembers(e, instance)
    {
    }
  }

  lemma OverlayFaultIff(e: Evidence, indexed: map<Id, Instance>)
    ensures LeastFault(indexed.Keys, MismatchIn(e, indexed)).None? <==> AllAgree(e, indexed, indexed.Keys)
  {
    Faultless(indexed.Keys, MismatchIn(e, indexed));
    forall o | o in indexed ensures MismatchIn(e, indexed)(o).None? <==> InstanceAgrees(e, indexed[o]) {
      InstanceMismatchIff(e, indexed[o]);
    }
    if AllAgree(e, indexed, indexed.Keys) {
      forall o | o in indexed ensures MismatchIn(e, indexed)(o).None? {
        assert InstanceAgrees(e, indexed[o]);
      }
    }
  }

  ghost predicate AllAgree(e: Evidence, indexed: map<Id, Instance>, seen: set<Id>) {
    forall o {:trigger InstanceAgrees(e, indexed[o])} :: o in seen && o in indexed ==> InstanceAgrees(e, indexed[o])
  }

  ghost predicate StatusAt(e: Evidence, indexed: map<Id, Instance>, seen: set<Id>, statuses: map<Id, WorkStatus>, c: Id) {
    if c in e.identities && e.identities[c].occurrenceId in seen && OverlayFor(e, indexed, c).Some?
    then c in statuses && statuses[c] == OverlayFor(e, indexed, c).value
    else c !in statuses
  }

  ghost predicate Statuses(e: Evidence, indexed: map<Id, Instance>, seen: set<Id>, statuses: map<Id, WorkStatus>) {
    forall c {:trigger StatusAt(e, indexed, seen, statuses, c)} :: StatusAt(e, indexed, seen, statuses, c)
  }

  lemma StatusesStep(e: Evidence, indexed: map<Id, Instance>, seen: set<Id>, statuses: map<Id, WorkStatus>, o: Id, more: map<Id, WorkStatus>)
    requires Statuses(e, indexed, seen, statuses) && o in indexed && o !in seen && indexed[o].occurrenceId == o
    requires Collected(e, indexed[o], ByMember(indexed[o].members).Keys, more)
    ensures Statuses(e, indexed, seen + {o}, statuses + more)
  {
    forall c ensures StatusAt(e, indexed, seen + {o}, statuses + more, c) {
      assert StatusAt(e, indexed, seen, statuses, c);
      CollectedAll(e, indexed[o], more, c);
    }
  }

  /** Validates the joined evidence completely, instance by instance in ascending order. */
  method CollectStatuses(e: Evidence, indexed: map<Id, Instance>) returns (r: Result<map<Id, WorkStatus>, Error>)
    requires forall o :: o in indexed ==> indexed[o].occurrenceId == o
    ensures r.Ok? ==> LeastFault(indexed.Keys, MismatchIn(e, indexed)).None? && Statuses(e, indexed, indexed.Keys, r.value)
    ensures r.Err? ==> LeastFault(indexed.Keys, MismatchIn(e, indexed)) == Some(r.error)
  {
    ghost var fault := MismatchIn(e, indexed);
    var statuses: map<Id, WorkStatus> := map[];
    var todo := indexed.Keys;
    ghost var seen: set<Id> := {};
    assert Statuses(e, indexed, {}, statuses);
    while todo != {}
      invariant todo !! seen && todo + seen == indexed.Keys && forall y, z :: y in seen && z in todo ==> y < z
      invariant forall o :: o in seen ==> fault(o).None?
      invariant Statuses(e, indexed, seen, statuses)
    {
      var o := Least(todo);
      FirstIsLeast(indexed.Keys, seen, todo, fault);
      AscendingStep(indexed.Keys, seen, todo);
      var checked := CheckInstance(e, indexed[o]);
      if checked.Err? {
        return Err(checked.error);
      }
      StatusesStep(e, indexed, seen, statuses, o, checked.value);
      statuses := statuses + checked.value;
      todo := todo - {o};
      seen := seen + {o};
    }
    assert seen == indexed.Keys;
    Faultless(indexed.Keys, fault);
    r := Ok(statuses);
  }

  /** `after` is `before` with the overlay applied: only statuses of listed clones differ. */
  ghost predicate Overlaid(e: Evidence, indexed: map<Id, Instance>, before: seq<PlanItem>, after: seq<PlanItem>) {
    && |after| == |before|
    && forall i :: 0 <= i < |before| ==>
         after[i] == match OverlayFor(e, indexed, before[i].id)
                     case Some(status) => before[i].(status := status)
                     case None => before[i]
  }

  function WithStatus(item: PlanItem, statuses: map<Id, WorkStatus>): PlanItem {
    if item.id in statuses then item.(status := statuses[item.id]) else item
  }

  lemma StatusesOverlay(e: Evidence, indexed: map<Id, Instance>, statuses: map<Id, WorkStatus>, before: seq<PlanItem>, after: seq<PlanItem>)
    requires Statuses(e, indexed, indexed.Keys, statuses) && |after| == |before|
    requires forall i :: 0 <= i < |before| ==> after[i] == WithStatus(before[i], statuses)
    ensures Overlaid(e, indexed, before, after)
  {
    forall i | 0 <= i < |before|
      ensures after[i] == match OverlayFor(e, indexed, before[i].id)
                          case Some(status) => before[i].(status := status)
                          case None => before[i]
    {
      assert StatusAt(e, indexed, indexed.Keys, statuses, before[i].id);
    }
  }

  // ---- What the overlay shows ----

  /** A clone shows `Blocked` for an open member of a blocked template and for a blocked member, and
      otherwise the status of its member. */
  ghost predicate Shows(template: WorkStatus, member: WorkStatus, shown: WorkStatus) {
    && (shown == Blocked <==> member == Blocked || (template == Blocked && member !in {Completed, Skipped, Canceled}))
    && (shown != Blocked ==> shown == member)
  }

  lemma EffectiveShows(template: WorkStatus, member: WorkStatus)
    ensures Shows(template, member, EffectiveStatus(template, member))
  {
  }

  /** `c` is the last clone of member `m` of `instance`, which the plan has a source item for. */
  ghost predicate ListedClone(e: Evidence, instance: Instance, m: Member, c: Id) {
    && c in e.identities && e.identities[c] == CloneOf(m.id, instance.occurrenceId)
    && m.id in e.source
    && forall d {:trigger e.identities[d]} :: d in e.identities && e.identities[d] == e.identities[c] ==> d <= c
  }

  ghost predicate ListedAt(e: Evidence, context: Context, c: Id, k: int, j: int) {
    && 0 <= k < |context.instances| && 0 <= j < |context.instances[k].members|
    && ListedClone(e, context.instances[k], context.instances[k].members[j], c)
  }

  ghost predicate ItemMeans(e: Evidence, context: Context, before: PlanItem, after: PlanItem) {
    && after.id == before.id
    && (forall k, j {:trigger ListedAt(e, context, before.id, k, j)} :: ListedAt(e, context, before.id, k, j) ==>
          var m := context.instances[k].members[j];
          Shows(e.source[m.id].status, m.status, after.status))
    && ((forall k, j :: !ListedAt(e, context, before.id, k, j)) ==> after == before)
  }

  lemma CloneForIff(e: Evidence, instance: Instance, m: Member, c: Id)
    requires m.id in e.source
    ensures CloneFor(e, m.id, instance.occurrenceId) == Some(c) <==> ListedClone(e, instance, m, c)
  {
    var clones := Clones(e, m.id, instance.occurrenceId);
    assert forall d {:trigger e.identities[d]} :: d in e.identities && e.identities[d] == CloneOf(m.id, instance.occurrenceId) ==> d in clones;
    if ListedClone(e, instance, m, c) {
      assert IsGreatest(clones, c);
    }
  }

  /** The overlay in terms of the listed members. */
  lemma ListedOverlay(e: Evidence, context: Context, c: Id, k: nat, j: nat)
    requires ValidContext(context) && ListedAt(e, context, c, k, j)
    ensures var m := context.instances[k].members[j];
      OverlayFor(e, ByOccurrence(context.instances), c) == Some(EffectiveStatus(e.source[m.id].status, m.status))
  {
    var instance := context.instances[k];
    assert ValidInstance(instance);
    IndexAt(context.instances, OccurrenceOf, k);
    IndexAt(instance.members, MemberId, j);
    CloneForIff(e, instance, instance.members[j], c);
  }

  lemma UnlistedOverlay(e: Evidence, context: Context, c: Id) returns (k: nat, j: nat)
    requires OverlayFor(e, ByOccurrence(context.instances), c).Some?
    ensures ListedAt(e, context, c, k, j)
  {
    var occurrence := e.identities[c].occurrenceId;
    k := IndexOrigin(context.instances, OccurrenceOf, occurrence);
    j := IndexOrigin(context.instances[k].members, MemberId, e.identities[c].seriesId);
    CloneForIff(e, context.instances[k], context.instances[k].members[j], c);
  }

  ghost predicate OverlayMeans(e: Evidence, context: Context, before: seq<PlanItem>, after: seq<PlanItem>) {
    |after| == |before| && forall i :: 0 <= i < |before| ==> ItemMeans(e, context, before[i], after[i])
  }

  /** Exactly the listed clones change, each to what its member and its template call for. */
  lemma OverlaidMeans(e: Evidence, context: Context, before: seq<PlanItem>, after: seq<PlanItem>)
    requires ValidContext(context) && Overlaid(e, ByOccurrence(context.instances), before, after)
    ensures OverlayMeans(e, context, before, after)
  {
    forall i | 0 <= i < |before| ensures ItemMeans(e, context, before[i], after[i]) {
      var c := before[i].id;
      forall k, j | ListedAt(e, context, c, k, j)
        ensures Shows(e.source[context.instances[k].members[j].id].status, context.instances[k].members[j].status, after[i].status)
      {
        var m := context.instances[k].members[j];
        ListedOverlay(e, context, c, k, j);
        EffectiveShows(e.source[m.id].status, m.status);
      }
      if OverlayFor(e, ByOccurrence(context.instances), c).Some? {
        var k, j := UnlistedOverlay(e, context, c);
      }
    }
  }

  /** The execution of a clone allows what the overlay would show: nothing reserved is blocked or
      finished, and nothing skipped is anything else. */
  ghost predicate Allows(unit: ExecutionUnit, template: WorkStatus, member: WorkStatus) {
    && (unit.hasReservations ==> template != Blocked && member in {NotStarted, Scheduled, Active, Paused})
    && (unit.skipped ==> member == Skipped)
  }

  lemma ConflictsIff(unit: ExecutionUnit, template: WorkStatus, member: WorkStatus)
    ensures Conflicts(unit, EffectiveStatus(template, member), member) <==> !Allows(unit, template, member)
  {
  }

  ghost predicate MemberFits(e: Evidence, instance: Instance, m: Member) {
    m.id in e.source ==>
      var source := e.source[m.id];
      && source.revision == m.sourceRevision
      && (m.id == instance.rootId ==> m.parent == None) && (m.id != instance.rootId ==> m.parent == source.parent)
      && (source.hasChildrenOutsidePlan <==> exists k :: HiddenChild(e, instance, m.id, k))
      && (exists c :: c in e.identities && e.identities[c] == CloneOf(m.id, instance.occurrenceId))
      && ((m.id, instance.occurrenceId) in e.execution ==>
            Allows(e.execution[(m.id, instance.occurrenceId)], source.status, m.status))
  }

  /** A listed child of `x` that the plan has no source item for. */
  ghost predicate HiddenChild(e: Evidence, instance: Instance, x: Id, k: int) {
    0 <= k < |instance.members| && instance.members[k].id !in e.source && instance.members[k].parent == Some(x)
  }

  lemma HiddenChildIff(e: Evidence, instance: Instance, x: Id)
    requires Distinguished(instance.members, MemberId)
    ensures OmittedChildOf(e, ByMember(instance.members), x) <==> exists k :: HiddenChild(e, instance, x, k)
  {
    var members := ByMember(instance.members);
    if OmittedChildOf(e, members, x) {
      var m :| m in members && m !in e.source && members[m].parent == Some(x);
      var k := IndexOrigin(instance.members, MemberId, m);
      assert HiddenChild(e, instance, x, k);
    }
    if exists k :: HiddenChild(e, instance, x, k) {
      var k :| HiddenChild(e, instance, x, k);
      IndexAt(instance.members, MemberId, k);
    }
  }

  lemma MemberFitsIff(e: Evidence, instance: Instance, j: nat)
    requires j < |instance.members| && Distinguished(instance.members, MemberId)
    ensures instance.members[j].id in ByMember(instance.members)
    ensures MemberAgrees(e, instance, ByMember(instance.members), instance.members[j].id) <==> MemberFits(e, instance, instance.members[j])
  {
    var m := instance.members[j];
    IndexAt(instance.members, MemberId, j);
    HiddenChildIff(e, instance, m.id);
    if m.id in e.source {
      assert Clones(e, m.id, instance.occurrenceId) != {} <==>
        exists c :: c in e.identities && e.identities[c] == CloneOf(m.id, instance.occurrenceId) by {
        if c :| c in e.identities && e.identities[c] == CloneOf(m.id, instance.occurrenceId) {
          assert c in Clones(e, m.id, instance.occurrenceId);
        }
      }
      if (m.id, instance.occurrenceId) in e.execution {
        ConflictsIff(e.execution[(m.id, instance.occurrenceId)], e.source[m.id].status, m.status);
      }
    }
  }

  ghost predicate HasCloneOf(e: Evidence, occurrence: Id, c: Id) {
    c in e.identities && e.identities[c].occurrenceId == occurrence
  }

  /** The instance is generated, has a clone, lists a member for each clone, and all its members fit. */
  ghost predicate InstanceFits(e: Evidence, instance: Instance) {
    var occurrence := instance.occurrenceId;
    && occurrence in e.occurrences && e.occurrences[occurrence] == Occurrence(instance.rootId, instance.identity, Generated)
    && (exists c :: HasCloneOf(e, occurrence, c))
    && (forall c :: HasCloneOf(e, occurrence, c) ==> Has(instance.members, MemberId, e.identities[c].seriesId))
    && (forall j :: 0 <= j < |instance.members| ==> MemberFits(e, instance, instance.members[j]))
  }

  lemma AllFitIff(e: Evidence, instance: Instance)
    requires Distinguished(instance.members, MemberId)
    ensures (forall m :: m in ByMember(instance.members) ==> MemberAgrees(e, instance, ByMember(instance.members), m)) <==>
            forall j :: 0 <= j < |instance.members| ==> MemberFits(e, instance, instance.members[j])
  {
    var members := ByMember(instance.members);
    if forall m :: m in members ==> MemberAgrees(e, instance, members, m) {
      forall j | 0 <= j < |instance.members| ensures MemberFits(e, instance, instance.members[j]) {
        MemberFitsIff(e, instance, j);
      }
    }
    if forall j :: 0 <= j < |instance.members| ==> MemberFits(e, instance, instance.members[j]) {
      forall m | m in members ensures MemberAgrees(e, instance, members, m) {
        var j := IndexOrigin(instance.members, MemberId, m);
        MemberFitsIff(e, instance, j);
      }
    }
  }

  /** An instance agrees with the evidence exactly when it fits, stated on its member list. */
  lemma InstanceFitsIff(e: Evidence, instance: Instance)
    requires Distinguished(instance.members, MemberId)
    ensures InstanceAgrees(e, instance) <==> InstanceFits(e, instance)
  {
    AllFitIff(e, instance);
    forall c | HasCloneOf(e, instance.occurrenceId, c)
      ensures e.identities[c].seriesId in ByMember(instance.members) <==> Has(instance.members, MemberId, e.identities[c].seriesId)
    {
      IndexDomain(instance.members, MemberId, e.identities[c].seriesId);
    }
    assert forall c {:trigger e.identities[c]} ::
      c in e.identities && e.identities[c].occurrenceId == instance.occurrenceId ==> HasCloneOf(e, instance.occurrenceId, c);
  }

  /** A plan whose recurrence roots have been replaced by clones, one per generated occurrence. */
  class MaterializedPlan {
    var items: seq<PlanItem>
    const occurrences: map<Id, Occurrence>
    const identities: map<Id, CloneOf>

    constructor (items: seq<PlanItem>, occurrences: map<Id, Occurrence>, identities: map<Id, CloneOf>)
      ensures this.items == items && this.occurrences == occurrences && this.identities == identities
    {
      this.items, this.occurrences, this.identities := items, occurrences, identities;
    }

    /** The projection loop, run only after everything has been validated. */
    method Project(statuses: map<Id, WorkStatus>)
      modifies this
      ensures |items| == |old(items)|
      ensures forall i :: 0 <= i < |items| ==> items[i] == WithStatus(old(items)[i], statuses)
    {
      var i := 0;
      while i < |items|
        invariant 0 <= i <= |items| == |old(items)|
        invariant forall j :: 0 <= j < i ==> items[j] == WithStatus(old(items)[j], statuses)
        invariant forall j :: i <= j < |items| ==> items[j] == old(items)[j]
      {
        if items[i].id in statuses {
          items := items[i := items[i].(status := statuses[items[i].id])];
        }
        i := i + 1;
      }
    }

    /** `apply_occurrence_lifecycle`: all or nothing. It succeeds exactly when the context is valid
        and every instance agrees with the evidence; success changes only the statuses of listed
        clones, and any error is the first complaint and leaves the plan untouched. */
    method ApplyOccurrenceLifecycle(source: map<Id, SourceItem>, execution: map<(Id, Id), ExecutionUnit>, context: Context)
      returns (r: Option<Error>)
      modifies this
      ensures r.Some? ==> items == old(items) && r == OverlayFault(Evidence(source, occurrences, identities, execution), context)
      ensures var e := Evidence(source, occurrences, identities, execution); var indexed := ByOccurrence(context.instances);
        r.None? <==> ValidContext(context) && AllAgree(e, indexed, indexed.Keys)
      ensures r.None? ==>
        Overlaid(Evidence(source, occurrences, identities, execution), ByOccurrence(context.instances), old(items), items)
      ensures r.None? ==> OverlayMeans(Evidence(source, occurrences, identities, execution), context, old(items), items)
    {
      var e := Evidence(source, occurrences, identities, execution);
      var indexed := IndexContext(context);
      if indexed.Err? {
        return Some(indexed.error);
      }
      forall o | o in indexed.value ensures indexed.value[o].occurrenceId == o {
        var i := IndexOrigin(context.instances, OccurrenceOf, o);
      }
      ValidContextFault(context);
      OverlayFaultIff(e, indexed.value);
      var collected := CollectStatuses(e, indexed.value);
      if collected.Err? {
        return Some(collected.error);
      }
      Project(collected.value);
      StatusesOverlay(e, indexed.value, collected.value, old(items), items);
      OverlaidMeans(e, context, old(items), items);
      r := None;
    }
  }
}
