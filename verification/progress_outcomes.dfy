/** What the next-action projection says, on the fields of the stages alone. */
module ProgressOutcomes {
  import opened Text
  import opened Ordering
  import opened Progress
  import Delivery

  // ---------------------------------------------------------------- valid facts

  predicate Named(value: string, limit: nat) {
    value != "" && Delivery.Plain(value, limit)
  }

  predicate StageInForm(s: Stage) {
    && Named(s.stageKey, 120) && s.status != UnknownStatus && Delivery.Plain(s.reviewRevisionId, 80)
    && Delivery.ValidDelivery(s.expectedDelivery)
    && (forall t :: t in s.tasks ==> Named(t.taskId, 80) && Delivery.Plain(t.billingOrderId, 80) && t.status != UnknownTaskStatus)
    && (forall b :: b in s.billings ==> Named(b.billingOrderId, 80) && b.status != UnknownBillingStatus)
    && forall id :: id in s.staleRevisionIds ==> Named(id, 80)
  }

  predicate StandsBefore(stages: seq<Stage>, i: nat, key: string)
    requires i <= |stages|
  {
    exists k :: 0 <= k < i && stages[k].stageKey == key
  }

  /** Facts are accepted if and only if they name a version and a time and hold stages in form with keys of
      their own, at least one, each depending only on earlier ones, named once. */
  lemma FactsExactly(f: Facts)
    ensures ValidFacts(f) <==>
            && Named(f.graphVersionId, 80) && f.graphVersion >= 1 && f.computedAt != 0 && |f.stages| >= 1
            && (forall i :: 0 <= i < |f.stages| ==> StageInForm(f.stages[i]))
            && (forall i, j :: 0 <= i < j < |f.stages| ==> f.stages[i].stageKey != f.stages[j].stageKey)
            && forall i :: 0 <= i < |f.stages| ==>
                 Distinct(f.stages[i].dependsOn) && forall d :: d in f.stages[i].dependsOn ==> StandsBefore(f.stages, i, d)
  {
    NamedExactly(f.graphVersionId, 80);
    forall i | 0 <= i < |f.stages|
      ensures ValidStage(f.stages[i], StageKeys(f.stages[..i])) <==>
              && StageInForm(f.stages[i]) && !StandsBefore(f.stages, i, f.stages[i].stageKey)
              && Distinct(f.stages[i].dependsOn) && forall d :: d in f.stages[i].dependsOn ==> StandsBefore(f.stages, i, d)
    {
      StageExactly(f.stages, i);
    }
    hide ValidStage, StageInForm, Distinct, Named, ValidIdentity, StandsBefore;
    KeysDiffer(f.stages);
  }

  lemma KeysDiffer(stages: seq<Stage>)
    ensures (forall i :: 0 <= i < |stages| ==> !StandsBefore(stages, i, stages[i].stageKey)) <==>
            (forall i, j :: 0 <= i < j < |stages| ==> stages[i].stageKey != stages[j].stageKey)
  {
    if forall i :: 0 <= i < |stages| ==> !StandsBefore(stages, i, stages[i].stageKey) {
      forall i, j | 0 <= i < j < |stages| ensures stages[i].stageKey != stages[j].stageKey {
        assert !StandsBefore(stages, j, stages[j].stageKey);
      }
    }
  }

  lemma NamedExactly(value: string, limit: nat)
    ensures ValidIdentity(value, limit) <==> Named(value, limit)
    ensures Trim(value) == value && Utf8Len(value) <= limit <==> Delivery.Plain(value, limit)
  {
    hide IsSpace, Utf8Len, Trim;
    TrimmedExactly(value);
  }

  lemma TrimmedExactly(value: string)
    ensures Trim(value) == value <==> Trimmed(value)
  {
  }

  lemma StageExactly(stages: seq<Stage>, i: nat)
    requires i < |stages|
    ensures ValidStage(stages[i], StageKeys(stages[..i])) <==>
            && StageInForm(stages[i]) && !StandsBefore(stages, i, stages[i].stageKey)
            && Distinct(stages[i].dependsOn) && forall d :: d in stages[i].dependsOn ==> StandsBefore(stages, i, d)
  {
    var s, preceding := stages[i], StageKeys(stages[..i]);
    forall value, limit: nat
      ensures ValidIdentity(value, limit) <==> Named(value, limit)
      ensures Trim(value) == value && Utf8Len(value) <= limit <==> Delivery.Plain(value, limit)
    {
      NamedExactly(value, limit);
    }
    forall key ensures key in preceding <==> StandsBefore(stages, i, key) {
      PrecedingKey(stages, i, key);
    }
    hide ValidIdentity, Named, Delivery.Plain, Trim, Utf8Len, Distinct, StandsBefore, StageKeys, Delivery.ValidDelivery;
    forall t: Task ensures ValidTask(t) <==> Named(t.taskId, 80) && Delivery.Plain(t.billingOrderId, 80) && t.status != UnknownTaskStatus {
    }
    forall b: Billing ensures ValidBilling(b) <==> Named(b.billingOrderId, 80) && b.status != UnknownBillingStatus {
    }
    hide ValidTask, ValidBilling;
  }

  lemma PrecedingKey(stages: seq<Stage>, i: nat, key: string)
    requires i <= |stages|
    ensures key in StageKeys(stages[..i]) <==> StandsBefore(stages, i, key)
  {
    if StandsBefore(stages, i, key) {
      var k :| 0 <= k < i && stages[k].stageKey == key;
      assert stages[k] in stages[..i];
    }
  }

  // ---------------------------------------------------------------- the current stage

  /** The evidence counts with exact revisions approved while the stage runs or awaits review. */
  predicate Counts(s: Stage, e: Delivery.Evidence) {
    && e == s.evidence.(artifacts := e.artifacts)
    && |e.artifacts| == |s.evidence.artifacts|
    && forall i :: 0 <= i < |e.artifacts| ==>
         var a := s.evidence.artifacts[i];
         e.artifacts[i] == if s.status in {Running, AwaitingReview} && a.artifactId != "" && a.revisionId != "" then a.(approved := true) else a
  }

  /** The delivery state of a stage is the verdict on the evidence that counts. */
  lemma DeliveryStateExactly(s: Stage) returns (e: Delivery.Evidence)
    ensures Counts(s, e) && DeliveryState(s) == Delivery.Verify(s.expectedDelivery, e)
  {
    hide Delivery.Verify;
    e := ProgressEvidence(s);
    if s.status !in {Running, AwaitingReview} {
      assert e == s.evidence;
    }
  }

  /** A stage is left behind when it is stopped, or completed with all of its evidence in order. */
  predicate LeftBehind(s: Stage) {
    || s.status == Stopped
    || (&& s.status == Completed
        && Delivery.Verify(s.expectedDelivery, s.evidence).status == Delivery.Satisfied
        && (forall t :: t in s.tasks ==> t.status == TaskSucceeded)
        && (forall b :: b in s.billings ==> b.status == Settled))
  }

  lemma OpenExactly(s: Stage)
    ensures Open(s) <==> !LeftBehind(s)
  {
    hide Delivery.Verify;
  }

  /** The current stage is the first one not left behind. */
  lemma CurrentExactly(f: Facts, i: nat)
    ensures Current(f, i) <==> i < |f.stages| && !LeftBehind(f.stages[i]) && forall k :: 0 <= k < i ==> LeftBehind(f.stages[k])
  {
    hide Open, LeftBehind;
    forall k | 0 <= k < |f.stages| ensures Open(f.stages[k]) <==> !LeftBehind(f.stages[k]) {
      OpenExactly(f.stages[k]);
    }
  }

  // ---------------------------------------------------------------- actions

  predicate Offers(p: Projection, s: Stage, action: Action) {
    p.actions == [EligibleAction(action, s.expectedDelivery.completionCriteria)]
  }

  /** With a blocker nothing is offered. Without one, the status alone decides which single action is,
      with the completion criteria of the stage as the evidence it requires. */
  lemma ActionsExactly(f: Facts, i: nat)
    requires ValidFacts(f) && Current(f, i)
    ensures var p, s := Project(f), f.stages[i];
            && (p.blockers != [] ==> p.actions == [])
            && (p.blockers == [] ==>
                 && (Offers(p, s, ExecuteStage) <==> s.status in {Planned, Failed, Stale})
                 && (Offers(p, s, SubmitReview) <==> s.status == Running)
                 && (Offers(p, s, ReviewStage) <==> s.status == AwaitingReview)
                 && (Offers(p, s, CompleteStage) <==> s.status == Approved)
                 && (p.actions == [] <==> s.status == Completed))
  {
    CurrentIsProjected(f, i);
    StatusesAreKnown(f, i);
    CurrentIsNotStopped(f, i);
    hide Project, ValidFacts, Current, EligibleActions;
    EligibleExactly(f.stages[i], Project(f).blockers);
  }

  lemma CurrentIsNotStopped(f: Facts, i: nat)
    requires Current(f, i)
    ensures f.stages[i].status != Stopped
  {
    OpenExactly(f.stages[i]);
  }

  lemma EligibleExactly(s: Stage, blockers: seq<Blocker>)
    ensures var actions, criteria := EligibleActions(s, blockers), s.expectedDelivery.completionCriteria;
            && (blockers != [] ==> actions == [])
            && (blockers == [] ==>
                 && (actions == [EligibleAction(ExecuteStage, criteria)] <==> s.status in {Planned, Failed, Stale})
                 && (actions == [EligibleAction(SubmitReview, criteria)] <==> s.status == Running)
                 && (actions == [EligibleAction(ReviewStage, criteria)] <==> s.status == AwaitingReview)
                 && (actions == [EligibleAction(CompleteStage, criteria)] <==> s.status == Approved)
                 && (actions == [] <==> s.status in {Completed, Stopped, UnknownStatus}))
  {
    var criteria := s.expectedDelivery.completionCriteria;
    forall a: Action, b: Action | [EligibleAction(a, criteria)] == [EligibleAction(b, criteria)] ensures a == b {
      assert [EligibleAction(a, criteria)][0].action == a;
    }
  }

  /** One planned stage that depends on nothing and has no tasks or billings. */
  function OnePlanned(contract: Delivery.ExpectedDelivery): Facts {
    Facts("g", 1, [Stage("s", Planned, [], "", contract, Delivery.Evidence("", "", 0, false, []), [], [], [])], 1)
  }

  lemma OnePlannedIsValid(contract: Delivery.ExpectedDelivery)
    requires Delivery.ValidDelivery(contract)
    ensures ValidFacts(OnePlanned(contract))
  {
    hide Delivery.ValidDelivery, ValidFacts;
    assert Named("s", 120) && Named("g", 80) && Delivery.Plain("", 80);
    hide Named, Delivery.Plain;
    FactsExactly(OnePlanned(contract));
  }

  lemma OnePlannedIsCurrent(contract: Delivery.ExpectedDelivery)
    ensures Current(OnePlanned(contract), 0)
  {
    hide Delivery.Verify, Current;
    CurrentExactly(OnePlanned(contract), 0);
  }

  lemma PlannedIsUnblocked(contract: Delivery.ExpectedDelivery)
    ensures UnblockedBy(OnePlanned(contract).stages[0])
  {
    hide Delivery.Verify;
  }

  /** It may be executed at once. */
  lemma PlannedStageRuns(contract: Delivery.ExpectedDelivery)
    requires Delivery.ValidDelivery(contract)
    ensures var p := Project(OnePlanned(contract));
            ValidFacts(OnePlanned(contract)) && p.blockers == [] && p.actions == [EligibleAction(ExecuteStage, contract.completionCriteria)]
  {
    hide Delivery.ValidDelivery, ValidFacts, Current, Project, UnblockedBy;
    OnePlannedIsValid(contract);
    OnePlannedIsCurrent(contract);
    PlannedIsUnblocked(contract);
    UnblockedExactly(OnePlanned(contract), 0);
    ActionsExactly(OnePlanned(contract), 0);
  }

  // ---------------------------------------------------------------- the other fields

  predicate IsActive(s: Stage, r: EvidenceRef) {
    r.kind == TaskRef && exists t :: t in s.tasks && t.taskId == r.id && t.status in {TaskQueued, TaskRunning}
  }

  lemma {:induction false} ActiveTasksAre(tasks: seq<Task>, r: EvidenceRef)
    ensures r in ActiveTasks(tasks) <==>
            r.kind == TaskRef && exists t :: t in tasks && t.taskId == r.id && t.status in {TaskQueued, TaskRunning}
  {
    if tasks != [] {
      var front, last := tasks[..|tasks| - 1], tasks[|tasks| - 1];
      ActiveTasksAre(front, r);
      assert tasks == front + [last];
      assert forall t :: t in tasks <==> t in front || t == last;
    }
  }

  lemma {:induction false} StaleRefsAre(ids: seq<string>, r: EvidenceRef)
    ensures r in StaleRefs(ids) <==> r.kind == ArtifactRevisionRef && r.id in ids
  {
    if ids != [] {
      StaleRefsAre(ids[..|ids| - 1], r);
      assert ids == ids[..|ids| - 1] + [ids[|ids| - 1]];
    }
  }

  lemma SortedRefs(refs: seq<EvidenceRef>, r: EvidenceRef)
    ensures r in Sort(RefLess, refs) <==> r in refs
    ensures Sorted(RefLess, Sort(RefLess, refs)) && |Sort(RefLess, refs)| == |refs|
  {
    RefLessIsStrictTotal();
    hide RefLess;
    SortCorrect(RefLess, refs);
    var sorted := Sort(RefLess, refs);
    assert r in sorted <==> r in multiset(sorted);
    assert r in refs <==> r in multiset(refs);
    assert |multiset(sorted)| == |multiset(refs)|;
  }

  /** The projection names the current stage with its status and review revision, the graph and the time;
      its active tasks are the queued and running ones, its stale revisions those of the stage, each list
      sorted and as long as what it lists. */
  lemma ProjectionExactly(f: Facts, i: nat, r: EvidenceRef)
    requires ValidFacts(f) && Current(f, i)
    ensures var p, s := Project(f), f.stages[i];
            && p.graphVersionId == f.graphVersionId && p.graphVersion == f.graphVersion && p.computedAt == f.computedAt
            && p.currentStageKey == s.stageKey && p.stageStatus == Some(s.status) && p.reviewRevisionId == s.reviewRevisionId
            && (r in p.activeTasks <==> IsActive(s, r)) && Sorted(RefLess, p.activeTasks)
            && (r in p.staleRevisions <==> r.kind == ArtifactRevisionRef && r.id in s.staleRevisionIds)
            && Sorted(RefLess, p.staleRevisions) && |p.staleRevisions| == |s.staleRevisionIds|
  {
    hide Raised, Collect, CompletedMap, EligibleActions, ValidFacts, Sort, RefLess, Sorted, FirstOpen, IsActive;
    var s := f.stages[i];
    ActiveTasksAre(s.tasks, r);
    StaleRefsAre(s.staleRevisionIds, r);
    StaleRefsLength(s.staleRevisionIds);
    SortedRefs(ActiveTasks(s.tasks), r);
    SortedRefs(StaleRefs(s.staleRevisionIds), r);
    assert IsActive(s, r) <==> r in ActiveTasks(s.tasks) by { UnfoldActive(s, r); }
  }

  lemma UnfoldActive(s: Stage, r: EvidenceRef)
    ensures IsActive(s, r) <==> r in ActiveTasks(s.tasks)
  {
    ActiveTasksAre(s.tasks, r);
  }

  lemma {:induction false} StaleRefsLength(ids: seq<string>)
    ensures |StaleRefs(ids)| == |ids|
  {
    if ids != [] {
      StaleRefsLength(ids[..|ids| - 1]);
    }
  }

  /** With every stage left behind the projection names none and lists nothing. */
  lemma NothingLeftExactly(f: Facts)
    requires forall k :: 0 <= k < |f.stages| ==> LeftBehind(f.stages[k])
    ensures Project(f) == Projection(f.graphVersionId, f.graphVersion, "", None, "", [], [], [], [], f.computedAt)
  {
    hide Open, LeftBehind;
    var i := FirstOpen(f.stages);
    if i < |f.stages| {
      OpenExactly(f.stages[i]);
    }
  }

  function Place(k: RefKind): nat {
    match k
    case ArtifactRevisionRef => 0
    case BillingOrderRef => 1
    case ResourceRef => 2
    case StageRef => 3
    case TaskRef => 4
  }

  /** References are ordered by kind, in the order of the kinds' names, and then by identity. */
  lemma RefOrder(a: EvidenceRef, b: EvidenceRef)
    ensures RefLess(a, b) <==> Place(a.kind) < Place(b.kind) || (a.kind == b.kind && Less(a.id, b.id))
  {
    if a.kind != b.kind {
      assert Name(a.kind)[0] != Name(b.kind)[0];
      assert Less(Name(a.kind), Name(b.kind)) <==> Name(a.kind)[0] < Name(b.kind)[0];
    }
  }

  // ---------------------------------------------------------------- blockers

  predicate Delivers(s: Stage) {
    s.status in {Running, AwaitingReview, Approved, Completed}
  }

  /** What a missing resource of a kind points at: each artifact of the kind by its resource or else its
      revision, and the stage when no artifact of the kind has either. */
  predicate PointsAt(s: Stage, kind: Delivery.ArtifactKind, r: EvidenceRef) {
    if exists a :: a in s.evidence.artifacts && a.kind == kind && (a.resourceId != "" || a.revisionId != "")
    then exists a :: a in s.evidence.artifacts && a.kind == kind
           && (if a.resourceId != "" then r == EvidenceRef(ResourceRef, a.resourceId)
               else a.revisionId != "" && r == EvidenceRef(ArtifactRevisionRef, a.revisionId))
    else r == EvidenceRef(StageRef, s.stageKey)
  }

  predicate TaskIs(s: Stage, r: EvidenceRef, statuses: set<TaskStatus>) {
    r.kind == TaskRef && exists t :: t in s.tasks && t.taskId == r.id && t.status in statuses
  }

  predicate BillingIs(s: Stage, r: EvidenceRef, statuses: set<BillingStatus>) {
    r.kind == BillingOrderRef && exists b :: b in s.billings && b.billingOrderId == r.id && b.status in statuses
  }

  /** When a reference blocks the current stage under a code; a dependency blocks it exactly when it is
      stopped, since every stage before the current one is left behind. */
  ghost predicate BlockedBy(f: Facts, i: nat, c: Code, r: EvidenceRef)
    requires i < |f.stages|
  {
    var s := f.stages[i];
    match c
    case DependencyIncomplete =>
      r.kind == StageRef && r.id in s.dependsOn && exists j :: 0 <= j < i && f.stages[j].stageKey == r.id && f.stages[j].status == Stopped
    case TaskIsActive => TaskIs(s, r, {TaskQueued, TaskRunning})
    case TaskHasFailed => s.status !in {Failed, Stale} && TaskIs(s, r, {TaskFailed})
    case TaskIsCancelled => s.status !in {Failed, Stale} && TaskIs(s, r, {TaskCancelled})
    case BillingPending => BillingIs(s, r, {Reserved, BillingRunning})
    case BillingUncertain => BillingIs(s, r, {Uncertain})
    case DeliveryIncomplete =>
      && Delivers(s) && r == EvidenceRef(StageRef, s.stageKey)
      && ((exists m :: m in DeliveryState(s).missing && m.fact != Delivery.Resource) || DeliveryState(s).status == Delivery.Failed)
    case ResourceNotReady =>
      Delivers(s) && exists m :: m in DeliveryState(s).missing && m.fact == Delivery.Resource && PointsAt(s, m.artifact, r)
    case ReviewRevisionMissing => s.status == AwaitingReview && s.reviewRevisionId == "" && r == EvidenceRef(StageRef, s.stageKey)
  }

  predicate ShownBy(a: Delivery.Artifact, kind: Delivery.ArtifactKind, r: EvidenceRef) {
    a.kind == kind && (if a.resourceId != "" then r == EvidenceRef(ResourceRef, a.resourceId)
                       else a.revisionId != "" && r == EvidenceRef(ArtifactRevisionRef, a.revisionId))
  }

  lemma {:induction false} ResourcesAre(artifacts: seq<Delivery.Artifact>, kind: Delivery.ArtifactKind, r: EvidenceRef)
    ensures r in ResourcesOf(artifacts, kind) <==> exists a :: a in artifacts && ShownBy(a, kind, r)
  {
    if artifacts != [] {
      var front, last := artifacts[..|artifacts| - 1], artifacts[|artifacts| - 1];
      ResourcesAre(front, kind, r);
      assert r in ResourceOf(last, kind) <==> ShownBy(last, kind, r);
      assert artifacts == front + [last];
      hide ShownBy, ResourceOf;
      assert forall a :: a in artifacts <==> a in front || a == last;
    }
  }

  lemma {:induction false} NoResources(artifacts: seq<Delivery.Artifact>, kind: Delivery.ArtifactKind)
    ensures ResourcesOf(artifacts, kind) == [] <==>
            forall a :: a in artifacts && a.kind == kind ==> a.resourceId == "" && a.revisionId == ""
  {
    if artifacts != [] {
      var front, last := artifacts[..|artifacts| - 1], artifacts[|artifacts| - 1];
      NoResources(front, kind);
      assert artifacts == front + [last];
      assert forall a :: a in artifacts <==> a in front || a == last;
    }
  }

  lemma ResourceRefsExactly(s: Stage, kind: Delivery.ArtifactKind, r: EvidenceRef)
    ensures r in ResourceRefs(s, kind) <==> PointsAt(s, kind, r)
  {
    ResourcesAre(s.evidence.artifacts, kind, r);
    NoResources(s.evidence.artifacts, kind);
    hide ResourcesOf;
    if a :| a in s.evidence.artifacts && ShownBy(a, kind, r) {
      assert a.resourceId != "" || a.revisionId != "";
    }
  }

  lemma MissingExactly(s: Stage, c: Code, r: EvidenceRef)
    ensures IsMissing(s, DeliveryIncomplete, r) <==>
            r == EvidenceRef(StageRef, s.stageKey) && exists m :: m in DeliveryState(s).missing && m.fact != Delivery.Resource
    ensures IsMissing(s, ResourceNotReady, r) <==>
            exists m :: m in DeliveryState(s).missing && m.fact == Delivery.Resource && PointsAt(s, m.artifact, r)
  {
    hide DeliveryState, ResourceRefs, PointsAt;
    forall m | m in DeliveryState(s).missing ensures r in ResourceRefs(s, m.artifact) <==> PointsAt(s, m.artifact, r) {
      ResourceRefsExactly(s, m.artifact, r);
    }
  }

  lemma TaskIsExactly(s: Stage, r: EvidenceRef)
    ensures TaskIs(s, r, {TaskQueued, TaskRunning}) <==> HasTask(s, TaskQueued, r) || HasTask(s, TaskRunning, r)
    ensures TaskIs(s, r, {TaskFailed}) <==> HasTask(s, TaskFailed, r)
    ensures TaskIs(s, r, {TaskCancelled}) <==> HasTask(s, TaskCancelled, r)
    ensures BillingIs(s, r, {Reserved, BillingRunning}) <==> HasBilling(s, Reserved, r) || HasBilling(s, BillingRunning, r)
    ensures BillingIs(s, r, {Uncertain}) <==> HasBilling(s, Uncertain, r)
  {
  }

  /** The blockers of the current stage hold exactly the pairs of `BlockedBy`. */
  lemma BlockedExactly(f: Facts, i: nat, c: Code, r: EvidenceRef)
    requires ValidFacts(f) && Current(f, i)
    ensures Holds(Project(f).blockers, c, r) <==> BlockedBy(f, i, c, r)
  {
    hide Project, ValidFacts, Holds, Canonical, CompletedMap, DeliveryState, IsMissing, PointsAt, TaskIs, BillingIs, HasTask, HasBilling, Done,
      FirstOpen;
    BlockersExactly(f, i);
    IncompleteDependenciesAreStopped(f, i, r);
    MissingExactly(f.stages[i], c, r);
    TaskIsExactly(f.stages[i], r);
  }
}
