/** The next-action projection over an ordered list of production stages. */
module Progress {
  import opened Text
  import opened Ordering
  import Delivery

  datatype StageStatus = Planned | Running | AwaitingReview | Approved | Completed | Failed | Stopped | Stale | UnknownStatus
  datatype TaskStatus = TaskQueued | TaskRunning | TaskSucceeded | TaskFailed | TaskCancelled | UnknownTaskStatus
  datatype BillingStatus = Reserved | BillingRunning | Settled | Refunded | Uncertain | UnknownBillingStatus

  datatype Task = Task(taskId: string, status: TaskStatus, billingOrderId: string)
  datatype Billing = Billing(billingOrderId: string, status: BillingStatus)

  datatype Stage = Stage(
    stageKey: string,
    status: StageStatus,
    dependsOn: seq<string>,
    reviewRevisionId: string,
    expectedDelivery: Delivery.ExpectedDelivery,
    evidence: Delivery.Evidence,
    tasks: seq<Task>,
    billings: seq<Billing>,
    staleRevisionIds: seq<string>)

  // The time 0 is the zero time.
  datatype Facts = Facts(graphVersionId: string, graphVersion: int, stages: seq<Stage>, computedAt: int)

  datatype RefKind = ArtifactRevisionRef | BillingOrderRef | ResourceRef | StageRef | TaskRef
  datatype EvidenceRef = EvidenceRef(kind: RefKind, id: string)

  datatype Code =
    | DependencyIncomplete | TaskIsActive | TaskHasFailed | TaskIsCancelled | BillingPending | BillingUncertain
    | DeliveryIncomplete | ResourceNotReady | ReviewRevisionMissing

  datatype Blocker = Blocker(code: Code, refs: seq<EvidenceRef>)
  datatype Action = ExecuteStage | SubmitReview | ReviewStage | CompleteStage
  datatype EligibleAction = EligibleAction(action: Action, requiredEvidence: seq<Delivery.Criterion>)

  datatype Projection = Projection(
    graphVersionId: string,
    graphVersion: int,
    currentStageKey: string,
    stageStatus: Option<StageStatus>,
    reviewRevisionId: string,
    blockers: seq<Blocker>,
    actions: seq<EligibleAction>,
    activeTasks: seq<EvidenceRef>,
    staleRevisions: seq<EvidenceRef>,
    computedAt: int)

  datatype ProgressError = ProgressInvalid

  // ---------------------------------------------------------------- valid facts

  predicate ValidIdentity(value: string, maximum: nat) {
    value != "" && Trim(value) == value && Utf8Len(value) <= maximum
  }

  predicate ValidDependencies(s: Stage, preceding: set<string>) {
    Distinct(s.dependsOn) && forall d :: d in s.dependsOn ==> d in preceding && d != s.stageKey
  }

  predicate ValidTask(t: Task) {
    && ValidIdentity(t.taskId, 80)
    && !t.status.UnknownTaskStatus?
    && Trim(t.billingOrderId) == t.billingOrderId && Utf8Len(t.billingOrderId) <= 80
  }

  predicate ValidBilling(b: Billing) {
    ValidIdentity(b.billingOrderId, 80) && !b.status.UnknownBillingStatus?
  }

  /** A stage that may follow the preceding ones: it depends on some of them only. */
  predicate ValidStage(s: Stage, preceding: set<string>) {
    && ValidIdentity(s.stageKey, 120)
    && !s.status.UnknownStatus?
    && Trim(s.reviewRevisionId) == s.reviewRevisionId && Utf8Len(s.reviewRevisionId) <= 80
    && Delivery.ValidDelivery(s.expectedDelivery)
    && s.stageKey !in preceding
    && ValidDependencies(s, preceding)
    && (forall i :: 0 <= i < |s.tasks| ==> ValidTask(s.tasks[i]))
    && (forall i :: 0 <= i < |s.billings| ==> ValidBilling(s.billings[i]))
    && forall i :: 0 <= i < |s.staleRevisionIds| ==> ValidIdentity(s.staleRevisionIds[i], 80)
  }

  function StageKeys(stages: seq<Stage>): set<string> {
    set s | s in stages :: s.stageKey
  }

  predicate ValidStages(stages: seq<Stage>) {
    forall i :: 0 <= i < |stages| ==> ValidStage(stages[i], StageKeys(stages[..i]))
  }

  predicate ValidFacts(f: Facts) {
    && ValidIdentity(f.graphVersionId, 80)
    && f.graphVersion >= 1
    && f.computedAt != 0
    && f.stages != []
    && ValidStages(f.stages)
  }

  method CheckDependencies(s: Stage, preceding: set<string>) returns (ok: bool)
    requires forall k :: k in preceding ==> ValidIdentity(k, 120)
    ensures ok <==> ValidDependencies(s, preceding)
  {
    hide ValidIdentity;
    var seen: set<string> := {};
    for i := 0 to |s.dependsOn|
      invariant forall a, b :: 0 <= a < b < i ==> s.dependsOn[a] != s.dependsOn[b]
      invariant forall d :: d in seen <==> exists k :: 0 <= k < i && s.dependsOn[k] == d
      invariant forall k :: 0 <= k < i ==> s.dependsOn[k] in preceding && s.dependsOn[k] != s.stageKey
    {
      var d := s.dependsOn[i];
      assert d in s.dependsOn;
      if !ValidIdentity(d, 120) || d == s.stageKey || d in seen || d !in preceding {
        return false;
      }
      seen := seen + {d};
    }
    return true;
  }

  method CheckTasks(tasks: seq<Task>) returns (ok: bool)
    ensures ok <==> forall i :: 0 <= i < |tasks| ==> ValidTask(tasks[i])
  {
    hide ValidTask;
    for i := 0 to |tasks|
      invariant forall k :: 0 <= k < i ==> ValidTask(tasks[k])
    {
      if !ValidTask(tasks[i]) {
        return false;
      }
    }
    return true;
  }

  method CheckBillings(billings: seq<Billing>) returns (ok: bool)
    ensures ok <==> forall i :: 0 <= i < |billings| ==> ValidBilling(billings[i])
  {
    hide ValidBilling;
    for i := 0 to |billings|
      invariant forall k :: 0 <= k < i ==> ValidBilling(billings[k])
    {
      if !ValidBilling(billings[i]) {
        return false;
      }
    }
    return true;
  }

  method CheckIdentities(ids: seq<string>, maximum: nat) returns (ok: bool)
    ensures ok <==> forall i :: 0 <= i < |ids| ==> ValidIdentity(ids[i], maximum)
  {
    hide ValidIdentity;
    for i := 0 to |ids|
      invariant forall k :: 0 <= k < i ==> ValidIdentity(ids[k], maximum)
    {
      if !ValidIdentity(ids[i], maximum) {
        return false;
      }
    }
    return true;
  }

  method CheckStage(s: Stage, preceding: set<string>) returns (ok: bool)
    requires forall k :: k in preceding ==> ValidIdentity(k, 120)
    ensures ok <==> ValidStage(s, preceding)
  {
    hide ValidIdentity, ValidTask, ValidBilling, ValidDependencies, Delivery.ValidDelivery, Trim, Utf8Len;
    if !ValidIdentity(s.stageKey, 120) || s.status.UnknownStatus? {
      return false;
    }
    if Trim(s.reviewRevisionId) != s.reviewRevisionId || Utf8Len(s.reviewRevisionId) > 80 {
      return false;
    }
    ok := Delivery.Validate(s.expectedDelivery);
    if !ok || s.stageKey in preceding {
      return false;
    }
    ok := CheckDependencies(s, preceding);
    if !ok {
      return false;
    }
    ok := CheckTasks(s.tasks);
    if !ok {
      return false;
    }
    ok := CheckBillings(s.billings);
    if !ok {
      return false;
    }
    ok := CheckIdentities(s.staleRevisionIds, 80);
  }

  // ---------------------------------------------------------------- evidence

  predicate ShowsRevision(a: Delivery.Artifact) {
    a.artifactId != "" && a.revisionId != ""
  }

  function ApproveOne(a: Delivery.Artifact): Delivery.Artifact {
    if ShowsRevision(a) then a.(approved := true) else a
  }

  /** While a stage runs or awaits review, exact revisions count as approved. */
  function Approve(artifacts: seq<Delivery.Artifact>): (approved: seq<Delivery.Artifact>)
    ensures |approved| == |artifacts| && forall i :: 0 <= i < |artifacts| ==> approved[i] == ApproveOne(artifacts[i])
  {
    seq(|artifacts|, i requires 0 <= i < |artifacts| => ApproveOne(artifacts[i]))
  }

  function ProgressEvidence(s: Stage): Delivery.Evidence {
    if s.status == Running || s.status == AwaitingReview then s.evidence.(artifacts := Approve(s.evidence.artifacts)) else s.evidence
  }

  function DeliveryState(s: Stage): Delivery.Verification {
    Delivery.Verify(s.expectedDelivery, ProgressEvidence(s))
  }

  method ApproveRevisions(artifacts: seq<Delivery.Artifact>) returns (approved: seq<Delivery.Artifact>)
    ensures approved == Approve(artifacts)
  {
    approved := artifacts;
    for i := 0 to |artifacts|
      invariant |approved| == |artifacts|
      invariant forall k :: 0 <= k < i ==> approved[k] == ApproveOne(artifacts[k])
      invariant forall k :: i <= k < |artifacts| ==> approved[k] == artifacts[k]
    {
      if ShowsRevision(approved[i]) {
        approved := approved[i := approved[i].(approved := true)];
      }
    }
  }

  method VerifyProgress(s: Stage) returns (v: Delivery.Verification)
    ensures v == DeliveryState(s)
  {
    var evidence := s.evidence;
    if s.status == Running || s.status == AwaitingReview {
      var approved := ApproveRevisions(evidence.artifacts);
      evidence := evidence.(artifacts := approved);
    }
    v := Delivery.VerifyDelivery(s.expectedDelivery, evidence);
  }

  /** The stage says it is completed and all of its evidence agrees. */
  predicate EvidenceCompleted(s: Stage) {
    && s.status == Completed
    && DeliveryState(s).status == Delivery.Satisfied
    && (forall t :: t in s.tasks ==> t.status == TaskSucceeded)
    && forall b :: b in s.billings ==> b.status == Settled
  }

  method IsCompleted(s: Stage) returns (completed: bool)
    ensures completed <==> EvidenceCompleted(s)
  {
    hide DeliveryState;
    var verification := VerifyProgress(s);
    if s.status != Completed || verification.status != Delivery.Satisfied {
      return false;
    }
    for i := 0 to |s.tasks|
      invariant forall k :: 0 <= k < i ==> s.tasks[k].status == TaskSucceeded
    {
      if s.tasks[i].status != TaskSucceeded {
        return false;
      }
    }
    for i := 0 to |s.billings|
      invariant forall k :: 0 <= k < i ==> s.billings[k].status == Settled
    {
      if s.billings[i].status != Settled {
        return false;
      }
    }
    return true;
  }

  // ---------------------------------------------------------------- lists of blockers

  function Name(k: RefKind): string {
    match k
    case ArtifactRevisionRef => "artifact_revision"
    case BillingOrderRef => "billing_order"
    case ResourceRef => "resource"
    case StageRef => "stage"
    case TaskRef => "task"
  }

  lemma NamesDiffer(a: RefKind, b: RefKind)
    requires a != b
    ensures Name(a) != Name(b)
  {
    assert Name(a)[0] != Name(b)[0];
  }

  predicate RefLess(a: EvidenceRef, b: EvidenceRef) {
    if a.kind == b.kind then Less(a.id, b.id) else Less(Name(a.kind), Name(b.kind))
  }

  lemma RefLessIsStrictTotal()
    ensures StrictTotal(RefLess)
  {
    LessIsStrictTotal();
    hide Less, Name;
    forall a: EvidenceRef, b: EvidenceRef | a.kind != b.kind ensures Less(Name(a.kind), Name(b.kind)) || Less(Name(b.kind), Name(a.kind)) {
      NamesDiffer(a.kind, b.kind);
    }
  }

  /** No code twice; each with at least one reference, in strictly ascending order. */
  ghost predicate Canonical(blockers: seq<Blocker>) {
    && (forall i, j :: 0 <= i < j < |blockers| ==> blockers[i].code != blockers[j].code)
    && forall i :: 0 <= i < |blockers| ==> blockers[i].refs != [] && Ascending(RefLess, blockers[i].refs)
  }

  predicate Holds(blockers: seq<Blocker>, code: Code, ref: EvidenceRef) {
    exists i :: 0 <= i < |blockers| && blockers[i].code == code && ref in blockers[i].refs
  }

  function AddRef(b: Blocker, ref: EvidenceRef): Blocker {
    if ref in b.refs then b else b.(refs := Sort(RefLess, b.refs + [ref]))
  }

  /** Adds one reference under a code: the entry of the code grows, or a new entry is appended. */
  function Append(blockers: seq<Blocker>, code: Code, ref: EvidenceRef): seq<Blocker> {
    if blockers == [] then [Blocker(code, [ref])]
    else if blockers[0].code == code then [AddRef(blockers[0], ref)] + blockers[1..]
    else [blockers[0]] + Append(blockers[1..], code, ref)
  }

  lemma {:induction false} AppendAt(blockers: seq<Blocker>, code: Code, ref: EvidenceRef, i: nat)
    requires i <= |blockers| && forall k :: 0 <= k < i ==> blockers[k].code != code
    ensures i == |blockers| ==> Append(blockers, code, ref) == blockers + [Blocker(code, [ref])]
    ensures i < |blockers| && blockers[i].code == code ==>
              Append(blockers, code, ref) == blockers[i := AddRef(blockers[i], ref)]
  {
    hide AddRef;
    if i > 0 {
      var rest := blockers[1..];
      AppendAt(rest, code, ref, i - 1);
      assert blockers == [blockers[0]] + rest;
      if i < |blockers| {
        assert blockers[i := AddRef(blockers[i], ref)] == [blockers[0]] + rest[i - 1 := AddRef(rest[i - 1], ref)];
      }
    }
  }

  method AppendBlocker(blockers: seq<Blocker>, code: Code, ref: EvidenceRef) returns (r: seq<Blocker>)
    ensures r == Append(blockers, code, ref)
  {
    hide Sort, RefLess, Append;
    for i := 0 to |blockers|
      invariant forall k :: 0 <= k < i ==> blockers[k].code != code
    {
      if blockers[i].code != code {
        continue;
      }
      AppendAt(blockers, code, ref, i);
      for k := 0 to |blockers[i].refs|
        invariant forall j :: 0 <= j < k ==> blockers[i].refs[j] != ref
      {
        if blockers[i].refs[k] == ref {
          return blockers;
        }
      }
      var sorted := Sort(RefLess, blockers[i].refs + [ref]);
      return blockers[i := blockers[i].(refs := sorted)];
    }
    AppendAt(blockers, code, ref, |blockers|);
    return blockers + [Blocker(code, [ref])];
  }

  ghost predicate CanonicalEntry(b: Blocker) {
    b.refs != [] && Ascending(RefLess, b.refs)
  }

  lemma AddRefIsCanonical(b: Blocker, ref: EvidenceRef)
    requires CanonicalEntry(b)
    ensures CanonicalEntry(AddRef(b, ref)) && AddRef(b, ref).code == b.code
    ensures forall r :: r in AddRef(b, ref).refs <==> r in b.refs || r == ref
  {
    if ref !in b.refs {
      RefLessIsStrictTotal();
      hide RefLess;
      var longer := b.refs + [ref];
      forall i, j | 0 <= i < j < |longer| ensures longer[i] != longer[j] {
        if j < |b.refs| {
          assert RefLess(b.refs[i], b.refs[j]);
        }
      }
      SortDistinct(RefLess, longer);
      hide Sort;
      assert longer[0] in longer;
    }
  }

  lemma CanonicalParts(b: Blocker, rest: seq<Blocker>)
    requires Canonical([b] + rest)
    ensures CanonicalEntry(b) && Canonical(rest) && !HasCode(rest, b.code)
  {
    hide Ascending;
    var all := [b] + rest;
    assert all[0] == b;
    assert forall i :: 0 <= i < |rest| ==> rest[i] == all[i + 1];
    forall i, j | 0 <= i < j < |rest| ensures rest[i].code != rest[j].code {
      assert all[i + 1].code != all[j + 1].code;
    }
  }

  lemma CanonicalJoined(b: Blocker, rest: seq<Blocker>)
    requires CanonicalEntry(b) && Canonical(rest) && !HasCode(rest, b.code)
    ensures Canonical([b] + rest)
  {
    hide Ascending;
    var all := [b] + rest;
    assert forall i :: 0 < i < |all| ==> all[i] == rest[i - 1];
    forall i, j | 0 <= i < j < |all| ensures all[i].code != all[j].code {
      assert rest[j - 1].code != b.code;
    }
  }

  lemma CanonicalFirst(b: Blocker, rest: seq<Blocker>)
    ensures Canonical([b] + rest) <==> CanonicalEntry(b) && Canonical(rest) && !HasCode(rest, b.code)
  {
    hide Canonical, CanonicalEntry, HasCode;
    if Canonical([b] + rest) {
      CanonicalParts(b, rest);
    }
    if CanonicalEntry(b) && Canonical(rest) && !HasCode(rest, b.code) {
      CanonicalJoined(b, rest);
    }
  }

  lemma {:induction false} AppendIsCanonical(blockers: seq<Blocker>, code: Code, ref: EvidenceRef)
    requires Canonical(blockers)
    ensures Canonical(Append(blockers, code, ref))
    ensures forall c :: HasCode(Append(blockers, code, ref), c) <==> HasCode(blockers, c) || c == code
  {
    if blockers == [] {
      OneEntry(code, ref);
    } else {
      hide AddRef, Canonical, CanonicalEntry, HasCode;
      var rest := blockers[1..];
      assert blockers == [blockers[0]] + rest;
      CanonicalFirst(blockers[0], rest);
      if blockers[0].code == code {
        AddRefIsCanonical(blockers[0], ref);
        CanonicalFirst(AddRef(blockers[0], ref), rest);
        forall c ensures HasCode(Append(blockers, code, ref), c) <==> HasCode(blockers, c) || c == code {
          HasCodeFirst(AddRef(blockers[0], ref), rest, c);
          HasCodeFirst(blockers[0], rest, c);
        }
      } else {
        AppendIsCanonical(rest, code, ref);
        CanonicalFirst(blockers[0], Append(rest, code, ref));
        forall c ensures HasCode(Append(blockers, code, ref), c) <==> HasCode(blockers, c) || c == code {
          HasCodeFirst(blockers[0], Append(rest, code, ref), c);
          HasCodeFirst(blockers[0], rest, c);
        }
      }
    }
  }

  lemma OneEntry(code: Code, ref: EvidenceRef)
    ensures Canonical([Blocker(code, [ref])])
    ensures forall c :: HasCode([Blocker(code, [ref])], c) <==> c == code
  {
    assert [Blocker(code, [ref])][0].code == code;
  }

  predicate HasCode(blockers: seq<Blocker>, code: Code) {
    exists i :: 0 <= i < |blockers| && blockers[i].code == code
  }

  lemma HasCodeFirst(b: Blocker, rest: seq<Blocker>, code: Code)
    ensures HasCode([b] + rest, code) <==> b.code == code || HasCode(rest, code)
  {
    var all := [b] + rest;
    if b.code == code {
      assert all[0].code == code;
    }
    if i :| 0 <= i < |rest| && rest[i].code == code {
      assert all[i + 1].code == code;
    }
  }

  lemma HoldsFirst(b: Blocker, rest: seq<Blocker>, code: Code, ref: EvidenceRef)
    ensures Holds([b] + rest, code, ref) <==> (b.code == code && ref in b.refs) || Holds(rest, code, ref)
  {
    var all := [b] + rest;
    if b.code == code && ref in b.refs {
      assert all[0] == b;
    }
    if i :| 0 <= i < |rest| && rest[i].code == code && ref in rest[i].refs {
      assert all[i + 1] == rest[i];
    }
  }

  lemma {:induction false} AppendHolds(blockers: seq<Blocker>, code: Code, ref: EvidenceRef, c: Code, r: EvidenceRef)
    requires Canonical(blockers)
    ensures Holds(Append(blockers, code, ref), c, r) <==> Holds(blockers, c, r) || (c == code && r == ref)
  {
    hide AddRef, Ascending, RefLess, Holds, Canonical, CanonicalEntry;
    if blockers == [] {
      HoldsFirst(Blocker(code, [ref]), [], c, r);
      assert [Blocker(code, [ref])] + [] == [Blocker(code, [ref])];
      assert !Holds([], c, r) by { HoldsNothing(c, r); }
    } else {
      var rest := blockers[1..];
      assert blockers == [blockers[0]] + rest;
      HoldsFirst(blockers[0], rest, c, r);
      CanonicalFirst(blockers[0], rest);
      if blockers[0].code == code {
        AddRefIsCanonical(blockers[0], ref);
        HoldsFirst(AddRef(blockers[0], ref), rest, c, r);
      } else {
        AppendHolds(rest, code, ref, c, r);
        HoldsFirst(blockers[0], Append(rest, code, ref), c, r);
      }
    }
  }

  lemma HoldsNothing(c: Code, r: EvidenceRef)
    ensures !Holds([], c, r)
  {
  }

  /** The list that raising the given codes and references one after the other builds. */
  function Collect(raised: seq<(Code, EvidenceRef)>): seq<Blocker> {
    if raised == [] then []
    else
      var last := raised[|raised| - 1];
      Append(Collect(raised[..|raised| - 1]), last.0, last.1)
  }

  lemma CollectNext(raised: seq<(Code, EvidenceRef)>, code: Code, ref: EvidenceRef)
    ensures Collect(raised + [(code, ref)]) == Append(Collect(raised), code, ref)
  {
    assert (raised + [(code, ref)])[..|raised|] == raised;
  }

  /** The collected list is canonical and holds exactly what was raised. */
  lemma {:induction false} CollectExactly(raised: seq<(Code, EvidenceRef)>)
    ensures Canonical(Collect(raised))
    ensures forall c, r :: Holds(Collect(raised), c, r) <==> (c, r) in raised
  {
    hide Canonical, Holds, Append;
    if raised == [] {
      forall c, r ensures !Holds([], c, r) {
        HoldsNothing(c, r);
      }
      assert Canonical([]) by { NothingIsCanonical(); }
    } else {
      var front, last := raised[..|raised| - 1], raised[|raised| - 1];
      CollectExactly(front);
      assert raised == front + [last];
      AppendIsCanonical(Collect(front), last.0, last.1);
      forall c, r ensures Holds(Collect(raised), c, r) <==> (c, r) in raised {
        AppendHolds(Collect(front), last.0, last.1, c, r);
      }
    }
  }

  lemma NothingIsCanonical()
    ensures Canonical([])
  {
  }

  // ---------------------------------------------------------------- what blocks a stage

  predicate Done(completed: map<string, bool>, key: string) {
    key in completed && completed[key]
  }

  predicate TracksFailures(s: Stage) {
    s.status != Failed && s.status != Stale
  }

  predicate RequiresDelivery(status: StageStatus) {
    status == Running || status == AwaitingReview || status == Approved || status == Completed
  }

  function TaskCode(s: Stage, t: Task): Option<Code> {
    match t.status
    case TaskQueued => Some(TaskIsActive)
    case TaskRunning => Some(TaskIsActive)
    case TaskFailed => if TracksFailures(s) then Some(TaskHasFailed) else None
    case TaskCancelled => if TracksFailures(s) then Some(TaskIsCancelled) else None
    case _ => None
  }

  function BillingCode(b: Billing): Option<Code> {
    match b.status
    case Reserved => Some(BillingPending)
    case BillingRunning => Some(BillingPending)
    case Uncertain => Some(BillingUncertain)
    case _ => None
  }

  function RaisedByDependencies(deps: seq<string>, completed: map<string, bool>): seq<(Code, EvidenceRef)> {
    if deps == [] then []
    else
      var last := deps[|deps| - 1];
      RaisedByDependencies(deps[..|deps| - 1], completed)
      + (if Done(completed, last) then [] else [(DependencyIncomplete, EvidenceRef(StageRef, last))])
  }

  function RaisedByTasks(s: Stage, tasks: seq<Task>): seq<(Code, EvidenceRef)> {
    if tasks == [] then []
    else
      var last := tasks[|tasks| - 1];
      RaisedByTasks(s, tasks[..|tasks| - 1])
      + (if TaskCode(s, last).Some? then [(TaskCode(s, last).value, EvidenceRef(TaskRef, last.taskId))] else [])
  }

  function ActiveTasks(tasks: seq<Task>): seq<EvidenceRef> {
    if tasks == [] then []
    else
      var last := tasks[|tasks| - 1];
      ActiveTasks(tasks[..|tasks| - 1])
      + (if last.status == TaskQueued || last.status == TaskRunning then [EvidenceRef(TaskRef, last.taskId)] else [])
  }

  function RaisedByBillings(billings: seq<Billing>): seq<(Code, EvidenceRef)> {
    if billings == [] then []
    else
      var last := billings[|billings| - 1];
      RaisedByBillings(billings[..|billings| - 1])
      + (if BillingCode(last).Some? then [(BillingCode(last).value, EvidenceRef(BillingOrderRef, last.billingOrderId))] else [])
  }

  function ResourceOf(a: Delivery.Artifact, kind: Delivery.ArtifactKind): seq<EvidenceRef> {
    if a.kind != kind then []
    else if a.resourceId != "" then [EvidenceRef(ResourceRef, a.resourceId)]
    else if a.revisionId != "" then [EvidenceRef(ArtifactRevisionRef, a.revisionId)]
    else []
  }

  function ResourcesOf(artifacts: seq<Delivery.Artifact>, kind: Delivery.ArtifactKind): seq<EvidenceRef> {
    if artifacts == [] then []
    else ResourcesOf(artifacts[..|artifacts| - 1], kind) + ResourceOf(artifacts[|artifacts| - 1], kind)
  }

  /** What a missing resource points at: the artifacts of its kind, or the stage when there are none. */
  function ResourceRefs(s: Stage, kind: Delivery.ArtifactKind): seq<EvidenceRef> {
    var refs := ResourcesOf(s.evidence.artifacts, kind);
    if refs == [] then [EvidenceRef(StageRef, s.stageKey)] else refs
  }

  function MissingCode(c: Delivery.Criterion): Code {
    if c.fact == Delivery.Resource then ResourceNotReady else DeliveryIncomplete
  }

  function MissingRefs(s: Stage, c: Delivery.Criterion): (refs: seq<EvidenceRef>)
    ensures refs != []
  {
    if c.fact == Delivery.Resource then ResourceRefs(s, c.artifact) else [EvidenceRef(StageRef, s.stageKey)]
  }

  function Under(code: Code, refs: seq<EvidenceRef>): seq<(Code, EvidenceRef)> {
    if refs == [] then [] else Under(code, refs[..|refs| - 1]) + [(code, refs[|refs| - 1])]
  }

  function RaisedByMissing(s: Stage, missing: seq<Delivery.Criterion>): seq<(Code, EvidenceRef)> {
    if missing == [] then []
    else
      var last := missing[|missing| - 1];
      RaisedByMissing(s, missing[..|missing| - 1]) + Under(MissingCode(last), MissingRefs(s, last))
  }

  function RaisedByDelivery(s: Stage): seq<(Code, EvidenceRef)> {
    if RequiresDelivery(s.status) then
      RaisedByMissing(s, DeliveryState(s).missing)
      + (if DeliveryState(s).status == Delivery.Failed then [(DeliveryIncomplete, EvidenceRef(StageRef, s.stageKey))] else [])
    else []
  }

  function RaisedByReview(s: Stage): seq<(Code, EvidenceRef)> {
    if s.status == AwaitingReview && s.reviewRevisionId == "" then [(ReviewRevisionMissing, EvidenceRef(StageRef, s.stageKey))] else []
  }

  /** Everything that blocks a stage, in the order in which it is found. */
  function Raised(s: Stage, completed: map<string, bool>): seq<(Code, EvidenceRef)> {
    RaisedByDependencies(s.dependsOn, completed) + RaisedByTasks(s, s.tasks) + RaisedByBillings(s.billings)
    + RaisedByDelivery(s) + RaisedByReview(s)
  }

  function StaleRefs(ids: seq<string>): seq<EvidenceRef> {
    if ids == [] then [] else StaleRefs(ids[..|ids| - 1]) + [EvidenceRef(ArtifactRevisionRef, ids[|ids| - 1])]
  }

  method BlockByDependencies(deps: seq<string>, completed: map<string, bool>) returns (blockers: seq<Blocker>)
    ensures blockers == Collect(RaisedByDependencies(deps, completed))
  {
    hide Append, Done;
    blockers := [];
    for i := 0 to |deps|
      invariant blockers == Collect(RaisedByDependencies(deps[..i], completed))
    {
      ghost var raised := RaisedByDependencies(deps[..i], completed);
      assert deps[..i + 1][..i] == deps[..i];
      if !Done(completed, deps[i]) {
        CollectNext(raised, DependencyIncomplete, EvidenceRef(StageRef, deps[i]));
        assert RaisedByDependencies(deps[..i + 1], completed) == raised + [(DependencyIncomplete, EvidenceRef(StageRef, deps[i]))];
        blockers := AppendBlocker(blockers, DependencyIncomplete, EvidenceRef(StageRef, deps[i]));
      } else {
        assert RaisedByDependencies(deps[..i + 1], completed) == raised;
      }
    }
    assert deps[..|deps|] == deps;
  }

  method BlockByTasks(s: Stage, before: seq<Blocker>, ghost base: seq<(Code, EvidenceRef)>)
    returns (blockers: seq<Blocker>, active: seq<EvidenceRef>)
    requires before == Collect(base)
    ensures blockers == Collect(base + RaisedByTasks(s, s.tasks)) && active == ActiveTasks(s.tasks)
  {
    hide Append, Collect;
    blockers, active := before, [];
    assert base + [] == base;
    for i := 0 to |s.tasks|
      invariant blockers == Collect(base + RaisedByTasks(s, s.tasks[..i])) && active == ActiveTasks(s.tasks[..i])
    {
      var task := s.tasks[i];
      var ref := EvidenceRef(TaskRef, task.taskId);
      ghost var raised := base + RaisedByTasks(s, s.tasks[..i]);
      assert s.tasks[..i + 1][..i] == s.tasks[..i];
      if task.status == TaskQueued || task.status == TaskRunning {
        active := active + [ref];
      }
      if TaskCode(s, task).Some? {
        CollectNext(raised, TaskCode(s, task).value, ref);
        assert base + RaisedByTasks(s, s.tasks[..i + 1]) == raised + [(TaskCode(s, task).value, ref)];
        blockers := AppendBlocker(blockers, TaskCode(s, task).value, ref);
      } else {
        assert base + RaisedByTasks(s, s.tasks[..i + 1]) == raised;
      }
    }
    assert s.tasks[..|s.tasks|] == s.tasks;
  }

  method BlockByBillings(billings: seq<Billing>, before: seq<Blocker>, ghost base: seq<(Code, EvidenceRef)>)
    returns (blockers: seq<Blocker>)
    requires before == Collect(base)
    ensures blockers == Collect(base + RaisedByBillings(billings))
  {
    hide Append, Collect;
    blockers := before;
    assert base + [] == base;
    for i := 0 to |billings|
      invariant blockers == Collect(base + RaisedByBillings(billings[..i]))
    {
      var ref := EvidenceRef(BillingOrderRef, billings[i].billingOrderId);
      ghost var raised := base + RaisedByBillings(billings[..i]);
      assert billings[..i + 1][..i] == billings[..i];
      if BillingCode(billings[i]).Some? {
        CollectNext(raised, BillingCode(billings[i]).value, ref);
        assert base + RaisedByBillings(billings[..i + 1]) == raised + [(BillingCode(billings[i]).value, ref)];
        blockers := AppendBlocker(blockers, BillingCode(billings[i]).value, ref);
      } else {
        assert base + RaisedByBillings(billings[..i + 1]) == raised;
      }
    }
    assert billings[..|billings|] == billings;
  }

  method FindResourceRefs(s: Stage, kind: Delivery.ArtifactKind) returns (refs: seq<EvidenceRef>)
    ensures refs == ResourceRefs(s, kind)
  {
    refs := [];
    var artifacts := s.evidence.artifacts;
    for i := 0 to |artifacts|
      invariant refs == ResourcesOf(artifacts[..i], kind)
    {
      var artifact := artifacts[i];
      assert artifacts[..i + 1][..i] == artifacts[..i];
      if artifact.kind == kind {
        if artifact.resourceId != "" {
          refs := refs + [EvidenceRef(ResourceRef, artifact.resourceId)];
        } else if artifact.revisionId != "" {
          refs := refs + [EvidenceRef(ArtifactRevisionRef, artifact.revisionId)];
        }
      }
    }
    assert artifacts[..|artifacts|] == artifacts;
    if |refs| == 0 {
      refs := [EvidenceRef(StageRef, s.stageKey)];
    }
  }

  method BlockByRefs(code: Code, refs: seq<EvidenceRef>, before: seq<Blocker>, ghost base: seq<(Code, EvidenceRef)>)
    returns (blockers: seq<Blocker>)
    requires before == Collect(base)
    ensures blockers == Collect(base + Under(code, refs))
  {
    hide Append, Collect;
    blockers := before;
    assert base + [] == base;
    for k := 0 to |refs|
      invariant blockers == Collect(base + Under(code, refs[..k]))
    {
      assert refs[..k + 1][..k] == refs[..k];
      CollectNext(base + Under(code, refs[..k]), code, refs[k]);
      assert base + Under(code, refs[..k + 1]) == base + Under(code, refs[..k]) + [(code, refs[k])];
      blockers := AppendBlocker(blockers, code, refs[k]);
    }
    assert refs[..|refs|] == refs;
  }

  method BlockByMissing(s: Stage, missing: seq<Delivery.Criterion>, before: seq<Blocker>, ghost base: seq<(Code, EvidenceRef)>)
    returns (blockers: seq<Blocker>)
    requires before == Collect(base)
    ensures blockers == Collect(base + RaisedByMissing(s, missing))
  {
    hide Append, Collect, Under, ResourceRefs;
    blockers := before;
    assert base + [] == base;
    for i := 0 to |missing|
      invariant blockers == Collect(base + RaisedByMissing(s, missing[..i]))
    {
      var refs := [EvidenceRef(StageRef, s.stageKey)];
      if missing[i].fact == Delivery.Resource {
        refs := FindResourceRefs(s, missing[i].artifact);
      }
      ghost var raised := base + RaisedByMissing(s, missing[..i]);
      assert missing[..i + 1][..i] == missing[..i];
      assert raised + Under(MissingCode(missing[i]), refs) == base + RaisedByMissing(s, missing[..i + 1]);
      blockers := BlockByRefs(MissingCode(missing[i]), refs, blockers, raised);
    }
    assert missing[..|missing|] == missing;
  }

  method BlockByDelivery(s: Stage, before: seq<Blocker>, ghost base: seq<(Code, EvidenceRef)>) returns (blockers: seq<Blocker>)
    requires before == Collect(base)
    ensures blockers == Collect(base + RaisedByDelivery(s))
  {
    hide Append, Collect, DeliveryState, RaisedByMissing;
    blockers := before;
    assert base + [] == base;
    if !RequiresDelivery(s.status) {
      return;
    }
    var verification := VerifyProgress(s);
    ghost var raised := RaisedByMissing(s, verification.missing);
    blockers := BlockByMissing(s, verification.missing, blockers, base);
    if verification.status == Delivery.Failed {
      var ref := EvidenceRef(StageRef, s.stageKey);
      CollectNext(base + raised, DeliveryIncomplete, ref);
      assert base + raised + [(DeliveryIncomplete, ref)] == base + (raised + [(DeliveryIncomplete, ref)]);
      blockers := AppendBlocker(blockers, DeliveryIncomplete, ref);
    } else {
      assert raised + [] == raised;
    }
  }

  method BlockersOf(s: Stage, completed: map<string, bool>)
    returns (blockers: seq<Blocker>, active: seq<EvidenceRef>, stale: seq<EvidenceRef>)
    ensures blockers == Collect(Raised(s, completed))
    ensures active == Sort(RefLess, ActiveTasks(s.tasks)) && stale == Sort(RefLess, StaleRefs(s.staleRevisionIds))
  {
    hide Append, Collect, RaisedByDelivery, RaisedByBillings, RaisedByTasks, RaisedByDependencies, ActiveTasks, Sort, RefLess;
    blockers := BlockByDependencies(s.dependsOn, completed);
    ghost var raised := RaisedByDependencies(s.dependsOn, completed);
    blockers, active := BlockByTasks(s, blockers, raised);
    raised := raised + RaisedByTasks(s, s.tasks);
    blockers := BlockByBillings(s.billings, blockers, raised);
    raised := raised + RaisedByBillings(s.billings);
    stale := [];
    for i := 0 to |s.staleRevisionIds|
      invariant stale == StaleRefs(s.staleRevisionIds[..i])
    {
      assert s.staleRevisionIds[..i + 1][..i] == s.staleRevisionIds[..i];
      stale := stale + [EvidenceRef(ArtifactRevisionRef, s.staleRevisionIds[i])];
    }
    assert s.staleRevisionIds[..|s.staleRevisionIds|] == s.staleRevisionIds;
    blockers := BlockByDelivery(s, blockers, raised);
    raised := raised + RaisedByDelivery(s);
    assert raised + [] == raised;
    if s.status == AwaitingReview && s.reviewRevisionId == "" {
      CollectNext(raised, ReviewRevisionMissing, EvidenceRef(StageRef, s.stageKey));
      blockers := AppendBlocker(blockers, ReviewRevisionMissing, EvidenceRef(StageRef, s.stageKey));
    }
    active := Sort(RefLess, active);
    stale := Sort(RefLess, stale);
  }

  // ---------------------------------------------------------------- the projection

  function ActionFor(status: StageStatus): Option<Action> {
    match status
    case Planned => Some(ExecuteStage)
    case Failed => Some(ExecuteStage)
    case Stale => Some(ExecuteStage)
    case Running => Some(SubmitReview)
    case AwaitingReview => Some(ReviewStage)
    case Approved => Some(CompleteStage)
    case _ => None
  }

  function EligibleActions(s: Stage, blockers: seq<Blocker>): seq<EligibleAction> {
    if blockers != [] || ActionFor(s.status).None? then []
    else [EligibleAction(ActionFor(s.status).value, s.expectedDelivery.completionCriteria)]
  }

  function CompletedMap(stages: seq<Stage>): map<string, bool> {
    if stages == [] then map[]
    else
      var last := stages[|stages| - 1];
      CompletedMap(stages[..|stages| - 1])[last.stageKey := EvidenceCompleted(last)]
  }

  /** A stage that is neither stopped nor completed by its evidence. */
  predicate Open(s: Stage) {
    s.status != Stopped && !EvidenceCompleted(s)
  }

  function FirstOpen(stages: seq<Stage>): (i: nat)
    ensures i <= |stages| && (i < |stages| ==> Open(stages[i])) && forall k :: 0 <= k < i ==> !Open(stages[k])
  {
    if stages == [] || Open(stages[0]) then 0 else 1 + FirstOpen(stages[1..])
  }

  function Project(f: Facts): Projection {
    var i, empty := FirstOpen(f.stages), Projection(f.graphVersionId, f.graphVersion, "", None, "", [], [], [], [], f.computedAt);
    if i == |f.stages| then empty
    else
      var s := f.stages[i];
      var blockers := Collect(Raised(s, CompletedMap(f.stages)));
      Projection(f.graphVersionId, f.graphVersion, s.stageKey, Some(s.status), s.reviewRevisionId,
                 blockers, EligibleActions(s, blockers),
                 Sort(RefLess, ActiveTasks(s.tasks)), Sort(RefLess, StaleRefs(s.staleRevisionIds)), f.computedAt)
  }

  method CheckStages(stages: seq<Stage>) returns (ok: bool, completed: map<string, bool>)
    ensures ok <==> ValidStages(stages)
    ensures ok ==> completed == CompletedMap(stages)
  {
    hide EvidenceCompleted, ValidIdentity, ValidStage, StageKeys;
    var preceding: set<string> := {};
    completed := map[];
    NoKeys();
    for i := 0 to |stages|
      invariant forall k :: 0 <= k < i ==> ValidStage(stages[k], StageKeys(stages[..k]))
      invariant preceding == StageKeys(stages[..i]) && forall k :: k in preceding ==> ValidIdentity(k, 120)
      invariant completed == CompletedMap(stages[..i])
    {
      ok := CheckStage(stages[i], preceding);
      if !ok {
        return false, completed;
      }
      NextKey(stages, i, preceding);
      assert stages[..i + 1][..i] == stages[..i];
      preceding := preceding + {stages[i].stageKey};
      var done := IsCompleted(stages[i]);
      completed := completed[stages[i].stageKey := done];
    }
    assert stages[..|stages|] == stages;
    return true, completed;
  }

  lemma NoKeys()
    ensures StageKeys([]) == {}
  {
  }

  lemma NextKey(stages: seq<Stage>, i: nat, preceding: set<string>)
    requires i < |stages| && preceding == StageKeys(stages[..i]) && ValidStage(stages[i], preceding)
    ensures StageKeys(stages[..i + 1]) == preceding + {stages[i].stageKey}
    ensures ValidIdentity(stages[i].stageKey, 120)
  {
    hide ValidIdentity, Delivery.ValidDelivery;
    assert stages[..i + 1] == stages[..i] + [stages[i]];
    assert forall s :: s in stages[..i + 1] <==> s in stages[..i] || s == stages[i];
  }

  /** The table of completed stages says of each stage what its own evidence says. */
  lemma {:induction false} CompletedAt(stages: seq<Stage>, i: nat)
    requires ValidStages(stages) && i < |stages|
    ensures stages[i].stageKey in CompletedMap(stages)
    ensures CompletedMap(stages)[stages[i].stageKey] == EvidenceCompleted(stages[i])
  {
    hide EvidenceCompleted, ValidIdentity, Delivery.ValidDelivery, ValidDependencies;
    var n := |stages| - 1;
    if i < n {
      PrefixIsValid(stages, n);
      CompletedAt(stages[..n], i);
      assert stages[i] in stages[..n] by { assert stages[..n][i] == stages[i]; }
      assert ValidStage(stages[n], StageKeys(stages[..n]));
      assert stages[i].stageKey in StageKeys(stages[..n]);
    }
  }

  lemma PrefixIsValid(stages: seq<Stage>, n: nat)
    requires ValidStages(stages) && n <= |stages|
    ensures ValidStages(stages[..n])
  {
    hide ValidStage;
    forall i | 0 <= i < n ensures ValidStage(stages[..n][i], StageKeys(stages[..n][..i])) {
      assert stages[..n][..i] == stages[..i];
    }
  }

  method BuildProductionProgress(f: Facts) returns (r: Result<Projection, ProgressError>)
    ensures r == if ValidFacts(f) then Success(Project(f)) else Failure(ProgressInvalid)
  {
    hide ValidIdentity, ValidStages, EvidenceCompleted, Raised, Collect, Sort, ActiveTasks, StaleRefs, RefLess, CompletedMap;
    if !ValidIdentity(f.graphVersionId, 80) || f.graphVersion < 1 || f.computedAt == 0 || |f.stages| == 0 {
      return Failure(ProgressInvalid);
    }
    var ok, completed := CheckStages(f.stages);
    if !ok {
      return Failure(ProgressInvalid);
    }
    for i := 0 to |f.stages|
      invariant forall k :: 0 <= k < i ==> !Open(f.stages[k])
    {
      var s := f.stages[i];
      CompletedAt(f.stages, i);
      if s.status == Stopped || completed[s.stageKey] {
        continue;
      }
      var blockers, active, stale := BlockersOf(s, completed);
      return Success(Projection(f.graphVersionId, f.graphVersion, s.stageKey, Some(s.status), s.reviewRevisionId,
                                blockers, EligibleActions(s, blockers), active, stale, f.computedAt));
    }
    return Success(Projection(f.graphVersionId, f.graphVersion, "", None, "", [], [], [], [], f.computedAt));
  }

  // ---------------------------------------------------------------- what the projection means

  predicate HasTask(s: Stage, status: TaskStatus, ref: EvidenceRef) {
    exists t :: t in s.tasks && t.status == status && ref == EvidenceRef(TaskRef, t.taskId)
  }

  predicate HasBilling(s: Stage, status: BillingStatus, ref: EvidenceRef) {
    exists b :: b in s.billings && b.status == status && ref == EvidenceRef(BillingOrderRef, b.billingOrderId)
  }

  predicate IsMissing(s: Stage, code: Code, ref: EvidenceRef) {
    exists c :: c in DeliveryState(s).missing && MissingCode(c) == code && ref in MissingRefs(s, c)
  }

  /** When a stage is blocked under a code by a reference. */
  predicate Blocks(s: Stage, completed: map<string, bool>, code: Code, ref: EvidenceRef) {
    match code
    case DependencyIncomplete => ref.kind == StageRef && ref.id in s.dependsOn && !Done(completed, ref.id)
    case TaskIsActive => HasTask(s, TaskQueued, ref) || HasTask(s, TaskRunning, ref)
    case TaskHasFailed => TracksFailures(s) && HasTask(s, TaskFailed, ref)
    case TaskIsCancelled => TracksFailures(s) && HasTask(s, TaskCancelled, ref)
    case BillingPending => HasBilling(s, Reserved, ref) || HasBilling(s, BillingRunning, ref)
    case BillingUncertain => HasBilling(s, Uncertain, ref)
    case DeliveryIncomplete =>
      RequiresDelivery(s.status) &&
      (IsMissing(s, code, ref) || (DeliveryState(s).status == Delivery.Failed && ref == EvidenceRef(StageRef, s.stageKey)))
    case ResourceNotReady => RequiresDelivery(s.status) && IsMissing(s, code, ref)
    case ReviewRevisionMissing =>
      s.status == AwaitingReview && s.reviewRevisionId == "" && ref == EvidenceRef(StageRef, s.stageKey)
  }

  lemma {:induction false} DependenciesRaise(deps: seq<string>, completed: map<string, bool>, c: Code, r: EvidenceRef)
    ensures (c, r) in RaisedByDependencies(deps, completed) <==>
            c == DependencyIncomplete && r.kind == StageRef && r.id in deps && !Done(completed, r.id)
  {
    hide Done;
    if deps != [] {
      DependenciesRaise(deps[..|deps| - 1], completed, c, r);
      assert deps == deps[..|deps| - 1] + [deps[|deps| - 1]];
    }
  }

  predicate TaskRaises(s: Stage, tasks: seq<Task>, c: Code, r: EvidenceRef) {
    exists t :: t in tasks && TaskCode(s, t) == Some(c) && r == EvidenceRef(TaskRef, t.taskId)
  }

  lemma {:induction false} TasksRaise(s: Stage, tasks: seq<Task>, c: Code, r: EvidenceRef)
    ensures (c, r) in RaisedByTasks(s, tasks) <==> TaskRaises(s, tasks, c, r)
  {
    hide TaskCode;
    if tasks != [] {
      var front, last := tasks[..|tasks| - 1], tasks[|tasks| - 1];
      TasksRaise(s, front, c, r);
      assert tasks == front + [last];
      assert forall t :: t in tasks <==> t in front || t == last;
    }
  }

  predicate BillingRaises(billings: seq<Billing>, c: Code, r: EvidenceRef) {
    exists b :: b in billings && BillingCode(b) == Some(c) && r == EvidenceRef(BillingOrderRef, b.billingOrderId)
  }

  lemma {:induction false} BillingsRaise(billings: seq<Billing>, c: Code, r: EvidenceRef)
    ensures (c, r) in RaisedByBillings(billings) <==> BillingRaises(billings, c, r)
  {
    hide BillingCode;
    if billings != [] {
      var front, last := billings[..|billings| - 1], billings[|billings| - 1];
      BillingsRaise(front, c, r);
      assert billings == front + [last];
      assert forall b :: b in billings <==> b in front || b == last;
    }
  }

  lemma {:induction false} UnderHolds(code: Code, refs: seq<EvidenceRef>, c: Code, r: EvidenceRef)
    ensures (c, r) in Under(code, refs) <==> c == code && r in refs
  {
    if refs != [] {
      UnderHolds(code, refs[..|refs| - 1], c, r);
      assert refs == refs[..|refs| - 1] + [refs[|refs| - 1]];
    }
  }

  predicate MissingRaises(s: Stage, missing: seq<Delivery.Criterion>, c: Code, r: EvidenceRef) {
    exists m :: m in missing && MissingCode(m) == c && r in MissingRefs(s, m)
  }

  lemma {:induction false} MissingRaise(s: Stage, missing: seq<Delivery.Criterion>, c: Code, r: EvidenceRef)
    ensures (c, r) in RaisedByMissing(s, missing) <==> MissingRaises(s, missing, c, r)
  {
    hide MissingRefs, MissingCode, Under;
    if missing != [] {
      var front, last := missing[..|missing| - 1], missing[|missing| - 1];
      MissingRaise(s, front, c, r);
      UnderHolds(MissingCode(last), MissingRefs(s, last), c, r);
      assert missing == front + [last];
      assert forall m :: m in missing <==> m in front || m == last;
    }
  }

  /** What is raised is exactly what blocks. */
  lemma RaisedExactly(s: Stage, completed: map<string, bool>, c: Code, r: EvidenceRef)
    ensures (c, r) in Raised(s, completed) <==> Blocks(s, completed, c, r)
  {
    DependenciesRaise(s.dependsOn, completed, c, r);
    TasksRaise(s, s.tasks, c, r);
    BillingsRaise(s.billings, c, r);
    MissingRaise(s, DeliveryState(s).missing, c, r);
    hide DeliveryState, RaisedByDependencies, RaisedByTasks, RaisedByBillings, RaisedByMissing, Done, MissingRefs;
    assert TaskRaises(s, s.tasks, c, r) <==>
      || (c == TaskIsActive && (HasTask(s, TaskQueued, r) || HasTask(s, TaskRunning, r)))
      || (c == TaskHasFailed && TracksFailures(s) && HasTask(s, TaskFailed, r))
      || (c == TaskIsCancelled && TracksFailures(s) && HasTask(s, TaskCancelled, r));
    hide HasTask, TaskRaises;
    assert BillingRaises(s.billings, c, r) <==>
      || (c == BillingPending && (HasBilling(s, Reserved, r) || HasBilling(s, BillingRunning, r)))
      || (c == BillingUncertain && HasBilling(s, Uncertain, r));
    hide HasBilling, BillingRaises;
    assert MissingRaises(s, DeliveryState(s).missing, c, r) <==> IsMissing(s, c, r);
    assert IsMissing(s, c, r) ==> c == DeliveryIncomplete || c == ResourceNotReady;
  }

  ghost predicate Current(f: Facts, i: nat) {
    i < |f.stages| && FirstOpen(f.stages) == i
  }

  /** The blockers of the current stage: each code at most once, references strictly ascending, and
      exactly the pairs of `Blocks`. */
  lemma BlockersExactly(f: Facts, i: nat)
    requires ValidFacts(f) && Current(f, i)
    ensures Project(f).currentStageKey == f.stages[i].stageKey
    ensures Canonical(Project(f).blockers)
    ensures forall c, r :: Holds(Project(f).blockers, c, r) <==> Blocks(f.stages[i], CompletedMap(f.stages), c, r)
  {
    hide Canonical, Holds, Blocks, Raised, Collect, Project, CompletedMap, ValidFacts;
    var s, completed := f.stages[i], CompletedMap(f.stages);
    CollectExactly(Raised(s, completed));
    CurrentIsProjected(f, i);
    forall c, r ensures Holds(Project(f).blockers, c, r) <==> Blocks(s, completed, c, r) {
      RaisedExactly(s, completed, c, r);
    }
  }

  lemma CurrentIsProjected(f: Facts, i: nat)
    requires Current(f, i)
    ensures Project(f).currentStageKey == f.stages[i].stageKey
    ensures Project(f).blockers == Collect(Raised(f.stages[i], CompletedMap(f.stages)))
    ensures Project(f).actions == EligibleActions(f.stages[i], Project(f).blockers)
  {
    hide Raised, Collect, CompletedMap, Sort, ActiveTasks, StaleRefs, EligibleActions, FirstOpen;
  }

  /** The stages before the current one are stopped or completed, so its incomplete dependencies are
      exactly its stopped ones. */
  lemma IncompleteDependenciesAreStopped(f: Facts, i: nat, r: EvidenceRef)
    requires ValidFacts(f) && Current(f, i)
    ensures Holds(Project(f).blockers, DependencyIncomplete, r) <==> r.kind == StageRef && StoppedDependency(f, i, r.id)
  {
    BlockersExactly(f, i);
    hide Holds, Canonical, Project, CompletedMap, Done, StoppedDependency, FirstOpen;
    if r.id in f.stages[i].dependsOn {
      DoneIsNotStopped(f, i, r.id);
    } else {
      assert !StoppedDependency(f, i, r.id) by { OthersDoNotStop(f, i, r.id); }
    }
  }

  lemma OthersDoNotStop(f: Facts, i: nat, key: string)
    requires i < |f.stages| && key !in f.stages[i].dependsOn
    ensures !StoppedDependency(f, i, key)
  {
  }

  lemma DoneIsNotStopped(f: Facts, i: nat, key: string)
    requires ValidFacts(f) && Current(f, i) && key in f.stages[i].dependsOn
    ensures Done(CompletedMap(f.stages), key) <==> !StoppedDependency(f, i, key)
  {
    var j := DependencyIndex(f, i, key);
    CompletedAt(f.stages, j);
    assert !Open(f.stages[j]);
    hide EvidenceCompleted, CompletedMap, FirstOpen, ValidStages, ValidIdentity;
    if f.stages[j].status == Stopped {
      StoppedIsNotCompleted(f.stages[j]);
    } else if StoppedDependency(f, i, key) {
      var k :| 0 <= k < i && f.stages[k].stageKey == key && f.stages[k].status == Stopped;
      KeysDiffer(f.stages, k, j);
    }
  }

  ghost predicate StoppedDependency(f: Facts, i: nat, key: string)
    requires i <= |f.stages|
  {
    i < |f.stages| && key in f.stages[i].dependsOn
    && exists j :: 0 <= j < i && f.stages[j].stageKey == key && f.stages[j].status == Stopped
  }

  lemma StoppedIsNotCompleted(s: Stage)
    requires s.status == Stopped
    ensures !EvidenceCompleted(s)
  {
  }

  lemma DependencyIndex(f: Facts, i: nat, key: string) returns (j: nat)
    requires ValidStages(f.stages) && i < |f.stages| && key in f.stages[i].dependsOn
    ensures j < i && f.stages[j].stageKey == key
  {
    hide ValidIdentity, Delivery.ValidDelivery;
    assert ValidStage(f.stages[i], StageKeys(f.stages[..i]));
    assert key in StageKeys(f.stages[..i]);
    var s :| s in f.stages[..i] && s.stageKey == key;
    j :| 0 <= j < i && f.stages[..i][j] == s;
  }

  lemma KeysDiffer(stages: seq<Stage>, k: nat, j: nat)
    requires ValidStages(stages) && k < |stages| && j < |stages| && stages[k].stageKey == stages[j].stageKey
    ensures k == j
  {
    hide ValidIdentity, Delivery.ValidDelivery, ValidDependencies;
    if k < j {
      LaterKeyIsNew(stages, k, j);
    } else if j < k {
      LaterKeyIsNew(stages, j, k);
    }
  }

  lemma LaterKeyIsNew(stages: seq<Stage>, k: nat, j: nat)
    requires ValidStages(stages) && k < j < |stages|
    ensures stages[k].stageKey != stages[j].stageKey
  {
    hide ValidIdentity, Delivery.ValidDelivery, ValidDependencies;
    assert ValidStage(stages[j], StageKeys(stages[..j]));
    assert stages[..j][k] == stages[k];
    assert stages[k] in stages[..j];
  }

  /** A stage with nothing to wait for and nothing to do: completed in every way except that some
      billing was refunded. */
  ghost predicate StuckOnRefund(f: Facts, i: nat)
    requires i < |f.stages|
  {
    var s := f.stages[i];
    && s.status == Completed
    && (forall key :: !StoppedDependency(f, i, key))
    && (forall t :: t in s.tasks ==> t.status == TaskSucceeded)
    && DeliveryState(s).status == Delivery.Satisfied
    && (forall b :: b in s.billings ==> b.status == Settled || b.status == Refunded)
    && exists b :: b in s.billings && b.status == Refunded
  }

  ghost predicate Unblocked(s: Stage, completed: map<string, bool>) {
    forall c, r :: !Blocks(s, completed, c, r)
  }

  predicate DependenciesDone(s: Stage, completed: map<string, bool>) {
    forall d :: d in s.dependsOn ==> Done(completed, d)
  }

  /** Nothing but a dependency may block the stage. */
  predicate UnblockedBy(s: Stage) {
    && (forall t :: t in s.tasks ==> TaskCode(s, t) == None)
    && (forall b :: b in s.billings ==> BillingCode(b) == None)
    && (RequiresDelivery(s.status) ==> DeliveryState(s).status == Delivery.Satisfied)
    && !(s.status == AwaitingReview && s.reviewRevisionId == "")
  }

  lemma EmptyHoldsNothing(blockers: seq<Blocker>)
    requires Canonical(blockers)
    ensures blockers == [] <==> forall c, r :: !Holds(blockers, c, r)
  {
    hide Ascending;
    if blockers != [] {
      assert blockers[0].refs[0] in blockers[0].refs;
      assert Holds(blockers, blockers[0].code, blockers[0].refs[0]);
    }
  }

  lemma DeliveryStateParts(s: Stage)
    ensures DeliveryState(s).status == Delivery.Satisfied ==> DeliveryState(s).missing == []
    ensures DeliveryState(s).status == Delivery.Repairable ==> DeliveryState(s).missing != []
  {
    hide Delivery.ValidDelivery, Delivery.ValidArtifact, Delivery.Meets, Approve;
    Delivery.VerdictExactly(s.expectedDelivery, ProgressEvidence(s));
  }

  lemma NotBlocked(s: Stage, completed: map<string, bool>, c: Code, r: EvidenceRef)
    requires Unblocked(s, completed)
    ensures !Blocks(s, completed, c, r)
  {
  }

  lemma UnblockedParts(s: Stage, completed: map<string, bool>)
    ensures Unblocked(s, completed) <==> UnblockedBy(s) && DependenciesDone(s, completed)
  {
    DeliveryStateParts(s);
    hide DeliveryState, MissingRefs, Done;
    if Unblocked(s, completed) {
      forall d | d in s.dependsOn ensures Done(completed, d) {
        assert !Blocks(s, completed, DependencyIncomplete, EvidenceRef(StageRef, d));
      }
      forall t | t in s.tasks ensures TaskCode(s, t) == None {
        if TaskCode(s, t).Some? {
          assert HasTask(s, t.status, EvidenceRef(TaskRef, t.taskId));
          NotBlocked(s, completed, TaskCode(s, t).value, EvidenceRef(TaskRef, t.taskId));
        }
      }
      forall b | b in s.billings ensures BillingCode(b) == None {
        if BillingCode(b).Some? {
          assert HasBilling(s, b.status, EvidenceRef(BillingOrderRef, b.billingOrderId));
          NotBlocked(s, completed, BillingCode(b).value, EvidenceRef(BillingOrderRef, b.billingOrderId));
        }
      }
      var stage := EvidenceRef(StageRef, s.stageKey);
      assert !Blocks(s, completed, ReviewRevisionMissing, stage) && !Blocks(s, completed, DeliveryIncomplete, stage);
      if RequiresDelivery(s.status) && DeliveryState(s).status != Delivery.Satisfied {
        var m := DeliveryState(s).missing[0];
        assert MissingRefs(s, m)[0] in MissingRefs(s, m);
        assert IsMissing(s, MissingCode(m), MissingRefs(s, m)[0]);
        NotBlocked(s, completed, MissingCode(m), MissingRefs(s, m)[0]);
      }
    }
  }

  /** Nothing blocks the current stage exactly when it has no stopped dependency and its own tasks,
      billings, delivery and review let it pass. */
  lemma UnblockedExactly(f: Facts, i: nat)
    requires ValidFacts(f) && Current(f, i)
    ensures Project(f).blockers == [] <==> UnblockedBy(f.stages[i]) && forall key :: !StoppedDependency(f, i, key)
  {
    var s, completed := f.stages[i], CompletedMap(f.stages);
    BlockersExactly(f, i);
    EmptyHoldsNothing(Project(f).blockers);
    UnblockedParts(s, completed);
    assert Project(f).blockers == [] <==> Unblocked(s, completed);
    hide Canonical, Project, CompletedMap, ValidFacts, UnblockedBy, FirstOpen, Done, Unblocked;
    if Project(f).blockers == [] {
      forall key ensures !StoppedDependency(f, i, key) {
        IncompleteDependenciesAreStopped(f, i, EvidenceRef(StageRef, key));
      }
    } else if UnblockedBy(s) {
      var d :| d in s.dependsOn && !Done(completed, d);
      assert Blocks(s, completed, DependencyIncomplete, EvidenceRef(StageRef, d));
      IncompleteDependenciesAreStopped(f, i, EvidenceRef(StageRef, d));
    }
  }

  /** The projection offers neither a blocker nor an action exactly when no stage is left or the
      current one is stuck on a refund. */
  lemma NothingToDoExactly(f: Facts)
    requires ValidFacts(f)
    ensures Project(f).blockers == [] && Project(f).actions == [] <==>
            FirstOpen(f.stages) == |f.stages| || StuckOnRefund(f, FirstOpen(f.stages))
  {
    hide Project, Raised, Collect, CompletedMap, ValidFacts, StuckOnRefund, EligibleActions, FirstOpen;
    var i := FirstOpen(f.stages);
    if i < |f.stages| {
      StuckExactly(f, i);
    } else {
      NothingLeft(f);
    }
  }

  lemma NothingLeft(f: Facts)
    requires FirstOpen(f.stages) == |f.stages|
    ensures Project(f).blockers == [] && Project(f).actions == []
  {
  }

  lemma StuckExactly(f: Facts, i: nat)
    requires ValidFacts(f) && Current(f, i)
    ensures Project(f).blockers == [] && Project(f).actions == [] <==> StuckOnRefund(f, i)
  {
    hide Project, Raised, Collect, CompletedMap, ValidFacts, StoppedDependency, DeliveryState, FirstOpen;
    var s := f.stages[i];
    CurrentIsProjected(f, i);
    UnblockedExactly(f, i);
    StatusesAreKnown(f, i);
    if s.status == Completed {
      CompletedStage(s);
      hide UnblockedBy;
    }
  }

  lemma StatusesAreKnown(f: Facts, i: nat)
    requires ValidFacts(f) && i < |f.stages|
    ensures !f.stages[i].status.UnknownStatus?
    ensures forall t :: t in f.stages[i].tasks ==> !t.status.UnknownTaskStatus?
    ensures forall b :: b in f.stages[i].billings ==> !b.status.UnknownBillingStatus?
  {
    hide ValidIdentity, Delivery.ValidDelivery, ValidDependencies;
    var s := f.stages[i];
    assert ValidStage(s, StageKeys(f.stages[..i]));
    forall t | t in s.tasks ensures !t.status.UnknownTaskStatus? {
      var k :| 0 <= k < |s.tasks| && s.tasks[k] == t;
      assert ValidTask(s.tasks[k]);
    }
    forall b | b in s.billings ensures !b.status.UnknownBillingStatus? {
      var k :| 0 <= k < |s.billings| && s.billings[k] == b;
      assert ValidBilling(s.billings[k]);
    }
  }

  lemma CompletedStage(s: Stage)
    requires s.status == Completed
    requires forall t :: t in s.tasks ==> !t.status.UnknownTaskStatus?
    requires forall b :: b in s.billings ==> !b.status.UnknownBillingStatus?
    ensures UnblockedBy(s) <==>
            && (forall t :: t in s.tasks ==> t.status == TaskSucceeded)
            && (forall b :: b in s.billings ==> b.status == Settled || b.status == Refunded)
            && DeliveryState(s).status == Delivery.Satisfied
    ensures !EvidenceCompleted(s) && UnblockedBy(s) ==> exists b :: b in s.billings && b.status == Refunded
    ensures (exists b :: b in s.billings && b.status == Refunded) ==> !EvidenceCompleted(s)
  {
    hide DeliveryState;
    forall t | t in s.tasks ensures TaskCode(s, t) == None <==> t.status == TaskSucceeded {
    }
    forall b | b in s.billings ensures BillingCode(b) == None <==> b.status == Settled || b.status == Refunded {
    }
  }
}
