/** The checkpoint of one agent run and every transition on it. A transition takes the
    current state by value and yields either an error or the next state with its events. */
module Runtime {
  import opened Text
  import opened Ordering
  import Delivery
  import C = Clarification

  const MAX_RUNTIME_STEPS := 24
  const MAX_RUNTIME_TOOL_CALLS := 64
  const CURRENT_TOOL_SCHEMA := 8
  const TOOL_RESULT_LIMIT := 256 * 1024
  const FINAL_MESSAGE_LIMIT := 32 * 1024
  const TEXT_LIMIT := 64 * 1024
  const IDENTITY_LIMIT := 120
  const FEEDBACK_LIMIT := 240

  // ---------------------------------------------------------------- state

  datatype RunStatus = Queued | Running | WaitingInput | WaitingApproval | WaitingTool | Succeeded | Failed | Cancelled {
    predicate Terminal() { Succeeded? || Failed? || Cancelled? }
  }

  datatype ToolName =
    | CanvasRead | CanvasApplyOps | AssetsRead | AssetsPublish | MediaGenerate | VisionAnalyze | SkillsLoad
    | RetiredTool

  datatype RiskLevel = ReadRisk | WriteRisk | CostRisk

  // `decodes` says whether the arguments decode for the tool; `canonical` is their canonical JSON.
  datatype Arguments = Arguments(canonical: string, decodes: bool)
  datatype ToolCall = ToolCall(
    toolCallId: string, toolName: ToolName, actionVersion: int, arguments: Arguments,
    expectedDelivery: Delivery.ExpectedDelivery)

  datatype SkillsLoadResult = SkillsLoadResult(dir: string, version: int, checksum: string, instructions: string)

  // JSON text with what the decoders say of it: whether it parses, and as a skill load result.
  datatype Output = Output(text: string, wellFormed: bool, skillsLoad: Option<SkillsLoadResult>)
  datatype ToolResult = ToolResult(toolCallId: string, actionVersion: int, succeeded: bool, output: Output, errorCode: string)

  datatype FeedbackCode =
    | ModelDecisionInvalid | DeliveryContractChanged | RequiredSkillNotLoaded | ClarificationIdentityReused | UnknownFeedback
  datatype Feedback = Feedback(code: FeedbackCode, reason: string)

  datatype Skill = Skill(dir: string, version: int, checksum: string, instructions: string)
  datatype ExecutionMode = Guided | Automatic

  // `otherFactsValid` stands for the checks on model selections, attachments and skill texts.
  datatype Configuration = Configuration(skills: seq<Skill>, executionMode: ExecutionMode, otherFactsValid: bool)

  datatype Steer = Steer(clientRequestId: string, message: string)
  datatype Limits = Limits(maxToolCalls: int, toolCallsUsed: int, startedAt: int, deadlineAt: int)

  datatype RuntimeState = RuntimeState(
    stateVersion: int, stepNumber: int, maxSteps: int, status: RunStatus,
    expectedDelivery: Option<Delivery.ExpectedDelivery>, verification: Option<Delivery.Verification>,
    pendingToolCall: Option<ToolCall>, pendingToolStarted: bool,
    pendingClarification: Option<C.Pending>, clarificationHistory: seq<C.Completed>,
    lastToolResult: Option<ToolResult>, decisionFeedback: Option<Feedback>,
    finalMessage: string, failureCode: string, userMessage: string, configuration: Configuration,
    loadedSkillDirs: seq<string>, pendingSteers: seq<Steer>, limits: Option<Limits>)

  // ---------------------------------------------------------------- validity

  predicate ValidBoundary(s: RuntimeState) {
    s.stateVersion >= 1 && 0 <= s.stepNumber <= s.maxSteps && 1 <= s.maxSteps <= MAX_RUNTIME_STEPS
  }

  // Time zero is the unset time.
  predicate ValidLimits(l: Limits) {
    && 1 <= l.maxToolCalls <= MAX_RUNTIME_TOOL_CALLS
    && 0 <= l.toolCallsUsed <= l.maxToolCalls
    && l.startedAt != 0 && l.deadlineAt != 0 && l.deadlineAt > l.startedAt
  }

  predicate ValidSteer(p: Steer) {
    && Trimmed(p.clientRequestId) && p.clientRequestId != "" && Utf8Len(p.clientRequestId) <= IDENTITY_LIMIT
    && Trimmed(p.message) && p.message != "" && Utf8Len(p.message) <= TEXT_LIMIT
  }

  predicate ValidPendingSteers(steers: seq<Steer>) {
    && (forall p :: p in steers ==> ValidSteer(p))
    && (forall i, j :: 0 <= i < j < |steers| ==> steers[i].clientRequestId != steers[j].clientRequestId)
  }

  predicate ValidUserMessage(message: string) {
    Trim(message) != "" && Utf8Len(message) <= TEXT_LIMIT
  }

  // Directories are taken already trimmed.
  predicate ValidConfiguration(c: Configuration) {
    && |c.skills| <= 8
    && (forall k :: k in c.skills ==> Trimmed(k.dir) && k.dir != "" && Utf8Len(k.dir) <= IDENTITY_LIMIT)
    && (forall i :: 0 <= i < |c.skills| - 1 ==> Less(c.skills[i].dir, c.skills[i + 1].dir))
    && c.otherFactsValid
  }

  method ValidateConfiguration(c: Configuration) returns (ok: bool)
    ensures ok <==> ValidConfiguration(c)
  {
    hide Trimmed, Utf8Len, Less;
    if |c.skills| > 8 {
      return false;
    }
    var previous := "";
    for i := 0 to |c.skills|
      invariant forall k :: 0 <= k < i ==> Trimmed(c.skills[k].dir) && c.skills[k].dir != "" && Utf8Len(c.skills[k].dir) <= IDENTITY_LIMIT
      invariant forall k :: 0 <= k < i - 1 ==> Less(c.skills[k].dir, c.skills[k + 1].dir)
      invariant previous == if i == 0 then "" else c.skills[i - 1].dir
    {
      var dir := c.skills[i].dir;
      assert c.skills[i] in c.skills;
      if !Trimmed(dir) || dir == "" || Utf8Len(dir) > IDENTITY_LIMIT || (previous != "" && !Less(previous, dir)) {
        return false;
      }
      previous := dir;
    }
    return c.otherFactsValid;
  }

  predicate ValidFeedback(f: Feedback) {
    !f.code.UnknownFeedback? && Trim(f.reason) != "" && Utf8Len(Trim(f.reason)) <= FEEDBACK_LIMIT
  }

  predicate Selected(skills: seq<Skill>, dir: string) {
    exists k :: k in skills && k.dir == dir
  }

  predicate ValidLoadedSkillDirs(skills: seq<Skill>, loaded: seq<string>) {
    && (forall d :: d in loaded ==> Trimmed(d) && d != "" && Selected(skills, d))
    && Ascending(Less, loaded)
  }

  predicate CompletedRequest(history: seq<C.Completed>, requestId: string) {
    exists c :: c in history && c.request.requestId == requestId
  }

  predicate ValidHistory(history: seq<C.Completed>, delivery: Option<Delivery.ExpectedDelivery>) {
    && (forall c :: c in history ==> C.ValidCompleted(c) && delivery == Some(c.request.expectedDelivery))
    && (forall i, j :: 0 <= i < j < |history| ==> history[i].request.requestId != history[j].request.requestId)
  }

  predicate ValidPendingClarification(p: C.Pending, history: seq<C.Completed>, delivery: Option<Delivery.ExpectedDelivery>) {
    && C.ValidRecord(p.request, p.answers, false)
    && !CompletedRequest(history, p.request.requestId)
    && delivery == Some(p.request.expectedDelivery)
  }

  predicate ValidClarificationState(s: RuntimeState) {
    && (s.status.WaitingInput? <==> s.pendingClarification.Some?)
    && (s.status.WaitingInput? ==> s.pendingToolCall.None? && !s.pendingToolStarted)
    && ValidHistory(s.clarificationHistory, s.expectedDelivery)
    && (s.pendingClarification.Some? ==>
         ValidPendingClarification(s.pendingClarification.value, s.clarificationHistory, s.expectedDelivery))
  }

  predicate ValidToolState(s: RuntimeState) {
    s.pendingToolStarted ==> (s.status.WaitingTool? || s.status.Cancelled?) && s.pendingToolCall.Some?
  }

  /** What `validateRuntimeState` accepts. */
  predicate Valid(s: RuntimeState) {
    && ValidBoundary(s)
    && (s.limits.Some? ==> ValidLimits(s.limits.value))
    && ValidToolState(s)
    && ValidPendingSteers(s.pendingSteers)
    && ValidClarificationState(s)
    && ValidUserMessage(s.userMessage)
    && ValidConfiguration(s.configuration)
    && (s.decisionFeedback.Some? ==> ValidFeedback(s.decisionFeedback.value))
    && (s.expectedDelivery.Some? ==> Delivery.ValidDelivery(s.expectedDelivery.value))
    && ValidLoadedSkillDirs(s.configuration.skills, s.loadedSkillDirs)
  }

  predicate Advanceable(s: RuntimeState) {
    Valid(s) && s.stepNumber < s.maxSteps && (s.status.Queued? || s.status.Running?)
  }

  // ---------------------------------------------------------------- the validators that loop

  method ValidatePendingSteers(steers: seq<Steer>) returns (ok: bool)
    ensures ok <==> ValidPendingSteers(steers)
  {
    var identities: set<string> := {};
    for i := 0 to |steers|
      invariant forall k :: 0 <= k < i ==> ValidSteer(steers[k]) && steers[k].clientRequestId in identities
      invariant forall id :: id in identities ==> exists k :: 0 <= k < i && steers[k].clientRequestId == id
      invariant forall j, k :: 0 <= j < k < i ==> steers[j].clientRequestId != steers[k].clientRequestId
    {
      if !ValidSteer(steers[i]) {
        return false;
      }
      if steers[i].clientRequestId in identities {
        return false;
      }
      identities := identities + {steers[i].clientRequestId};
    }
    return true;
  }

  method ValidateLoadedSkillDirs(skills: seq<Skill>, loaded: seq<string>) returns (ok: bool)
    ensures ok <==> ValidLoadedSkillDirs(skills, loaded)
  {
    LessIsStrictTotal();
    hide StrictTotal, Less, Ascending, Trim, Trimmed;
    var selectedSet := set k | k in skills :: k.dir;
    assert forall d :: d in selectedSet <==> Selected(skills, d);
    hide Selected;
    var previous := "";
    assert Ascending(Less, []) by { NothingAscends(); }
    for i := 0 to |loaded|
      invariant forall k :: 0 <= k < i ==> Trimmed(loaded[k]) && loaded[k] != "" && Selected(skills, loaded[k])
      invariant Ascending(Less, loaded[..i])
      invariant if i == 0 then previous == "" else previous == loaded[i - 1]
    {
      var dir := loaded[i];
      AscendingAppend(Less, loaded[..i], dir);
      assert loaded[..i + 1] == loaded[..i] + [dir];
      if Trim(dir) != dir || dir == "" || (previous != "" && !Less(previous, dir)) {
        if ValidLoadedSkillDirs(skills, loaded) {
          AscendingPrefix(Less, loaded, i + 1);
        }
        return false;
      }
      if dir !in selectedSet {
        return false;
      }
      previous := dir;
    }
    assert loaded[..|loaded|] == loaded;
    return true;
  }

  lemma NothingAscends()
    ensures Ascending(Less, [])
  {
  }

  /** The selected directories that are not loaded, in selection order. */
  function MissingSkillDirs(skills: seq<Skill>, loaded: seq<string>): (r: seq<string>)
    ensures r == [] <==> forall k :: k in skills ==> k.dir in loaded
  {
    if skills == [] then []
    else
      var last := skills[|skills| - 1];
      assert skills == skills[..|skills| - 1] + [last];
      MissingSkillDirs(skills[..|skills| - 1], loaded) + (if last.dir in loaded then [] else [last.dir])
  }

  method MissingRequiredSkillDirs(skills: seq<Skill>, loaded: seq<string>) returns (missing: seq<string>)
    ensures missing == MissingSkillDirs(skills, loaded)
  {
    var loadedSet := set d | d in loaded;
    missing := [];
    for i := 0 to |skills|
      invariant missing == MissingSkillDirs(skills[..i], loaded)
    {
      assert skills[..i + 1][..i] == skills[..i];
      if skills[i].dir !in loadedSet {
        missing := missing + [skills[i].dir];
      }
    }
    assert skills[..|skills|] == skills;
  }

  function AddLoadedSkillDir(current: seq<string>, dir: string): seq<string> {
    if dir in current then current else Sort(Less, current + [dir])
  }

  method AppendLoadedSkillDir(current: seq<string>, dir: string) returns (next: seq<string>)
    ensures next == AddLoadedSkillDir(current, dir)
  {
    next := current;
    for i := 0 to |next|
      invariant dir !in next[..i]
    {
      if next[i] == dir {
        return next;
      }
    }
    assert next[..|next|] == next;
    next := Sort(Less, next + [dir]);
  }

  /** Go's strings.Join(parts, ", "). */
  function Join(parts: seq<string>): string {
    if parts == [] then ""
    else if |parts| == 1 then parts[0]
    else Join(parts[..|parts| - 1]) + ", " + parts[|parts| - 1]
  }

  const MISSING_SKILLS_PREFIX := "load the missing " + "selected skills " + "before final " + "delivery: "

  function MissingSkillsFeedback(missing: seq<string>): Feedback {
    Feedback(RequiredSkillNotLoaded, MISSING_SKILLS_PREFIX + Join(missing))
  }

  function ContractChangedFeedback(): Feedback {
    Feedback(DeliveryContractChanged,
             "expectedDelivery must " + "exactly match the " + "contract frozen by the " + "first model decision")
  }

  function IdentityReusedFeedback(): Feedback {
    Feedback(ClarificationIdentityReused,
             "clarification requestId " + "was already completed " + "and must not " + "be reused")
  }

  // ---------------------------------------------------------------- decisions

  datatype FinalDecision = FinalDecision(message: string, expectedDelivery: Delivery.ExpectedDelivery)
  datatype DecisionKind = FinalKind | ToolCallKind | ClarificationKind | UnknownDecisionKind
  datatype ModelDecision = ModelDecision(
    kind: DecisionKind, final: Option<FinalDecision>, toolCall: Option<ToolCall>, clarification: Option<C.Request>)

  /** `ValidForToolSchema` at the current schema, the only one a decision can pass. */
  predicate CurrentTool(name: ToolName) {
    !name.RetiredTool?
  }

  function RiskOf(name: ToolName): RiskLevel
    requires CurrentTool(name)
  {
    match name
    case CanvasRead | AssetsRead | SkillsLoad => ReadRisk
    case CanvasApplyOps | AssetsPublish => WriteRisk
    case _ => CostRisk
  }

  predicate ApprovalRequiredFor(risk: RiskLevel, mode: ExecutionMode) {
    risk.WriteRisk? || risk.CostRisk?
  }

  /** The call with its identity trimmed, as validation leaves it. */
  function TrimCall(call: ToolCall): ToolCall {
    call.(toolCallId := Trim(call.toolCallId))
  }

  predicate ValidCall(call: ToolCall) {
    && Trim(call.toolCallId) != "" && Utf8Len(Trim(call.toolCallId)) <= IDENTITY_LIMIT
    && CurrentTool(call.toolName) && call.actionVersion >= 1
    && Delivery.ValidDelivery(call.expectedDelivery)
    && call.arguments.decodes
  }

  predicate ValidFinal(final: FinalDecision) {
    && Trim(final.message) != "" && Utf8Len(Trim(final.message)) <= FINAL_MESSAGE_LIMIT
    && Delivery.ValidDelivery(final.expectedDelivery)
  }

  predicate ValidDecision(d: ModelDecision, toolSchema: int) {
    && toolSchema == CURRENT_TOOL_SCHEMA
    && match d.kind
       case FinalKind => d.final.Some? && d.toolCall.None? && d.clarification.None? && ValidFinal(d.final.value)
       case ToolCallKind => d.toolCall.Some? && d.final.None? && d.clarification.None? && ValidCall(d.toolCall.value)
       case ClarificationKind => d.clarification.Some? && d.final.None? && d.toolCall.None? && C.ValidRequest(C.TrimRequest(d.clarification.value))
       case UnknownDecisionKind => false
  }

  function DecisionContract(d: ModelDecision): Delivery.ExpectedDelivery
    requires d.final.Some? || d.toolCall.Some? || d.clarification.Some?
  {
    if d.toolCall.Some? then d.toolCall.value.expectedDelivery
    else if d.clarification.Some? then d.clarification.value.expectedDelivery
    else d.final.value.expectedDelivery
  }

  predicate ValidFailureCode(code: string) {
    && code != "" && Utf8Len(code) <= 80
    && forall i :: 0 <= i < |code| ==> 'a' <= code[i] <= 'z' || '0' <= code[i] <= '9' || code[i] == '_'
  }

  predicate ValidOutput(output: Output) {
    output.text != "" && Utf8Len(output.text) <= TOOL_RESULT_LIMIT && output.text[0] == '{' && output.wellFormed
  }

  const EMPTY_OUTPUT := Output("{}", true, None)
  const STEP_BUDGET_EXHAUSTED := "step_budget_exhausted"
  const RUNTIME_DEADLINE_EXCEEDED := "runtime_deadline_exceeded"

  // ---------------------------------------------------------------- transitions

  datatype EventKind =
    | RunStatusChanged | RunSteered | RunInterrupted | ModelRejected
    | ClarificationRequested | ClarificationAnswerSaved | ClarificationResponded
    | ToolCalled | ApprovalRequired | ApprovalDecided | ToolStarted | ToolResulted
    | RunCompleted | RunFailed | AgentMessageCompleted

  datatype ApprovalResolution = Approved | Rejected | Invalidated

  datatype RuntimeError =
    | StateInvalid | NotAdvanceable | DecisionInvalid | FeedbackInvalid | IdentityInvalid | ResultInvalid
    | StatusConflict | SteerConflict | InterruptConflict | ExternalConflict | FailureCodeInvalid | TimeInvalid
    | ApprovalInvalid | ReplayInvalid | AnswerRejected | ClarificationConflict | VersionConflict | ClarificationIncomplete

  /** `replayed` marks an accepted request that had been applied before; `consumed` is the
      batch of steers handed to the model. */
  datatype Transition = Transition(
    state: RuntimeState, events: seq<EventKind>,
    replayed: bool := false, consumed: seq<Steer> := [],
    rejectedCall: Option<ToolCall> := None, toolReplay: Option<ToolReplay> := None,
    approval: Option<ApprovalResolution> := None, proposalHash: string := "")

  type Outcome = Result<Transition, RuntimeError>

  datatype SteerRequest = SteerRequest(clientRequestId: string, message: string, expectedStateVersion: int)

  function SteerById(steers: seq<Steer>, id: string): (r: Option<Steer>)
    ensures r.Some? ==> r.value in steers && r.value.clientRequestId == id
    ensures r.None? ==> forall p :: p in steers ==> p.clientRequestId != id
  {
    if steers == [] then None
    else if steers[0].clientRequestId == id then Some(steers[0])
    else SteerById(steers[1..], id)
  }

  function AppendSteer(current: RuntimeState, request: SteerRequest): Outcome {
    if !Valid(current) then Failure(StateInvalid)
    else
      var steer := Steer(Trim(request.clientRequestId), Trim(request.message));
      if steer.clientRequestId == "" || Utf8Len(steer.clientRequestId) > IDENTITY_LIMIT ||
         steer.message == "" || Utf8Len(steer.message) > TEXT_LIMIT || request.expectedStateVersion < 1
      then Failure(SteerConflict)
      else
        match SteerById(current.pendingSteers, steer.clientRequestId)
        case Some(pending) =>
          if pending.message != steer.message then Failure(SteerConflict)
          else Success(Transition(current, [], replayed := true))
        case None =>
          if current.status.Terminal() || current.stateVersion != request.expectedStateVersion then Failure(SteerConflict)
          else
            var next := current.(stateVersion := current.stateVersion + 1, pendingSteers := current.pendingSteers + [steer]);
            if !Valid(next) then Failure(StateInvalid)
            else Success(Transition(next, [RunSteered]))
  }

  function ConsumePendingSteers(current: RuntimeState): Outcome {
    if !Valid(current) then Failure(StateInvalid)
    else if !current.status.Queued? && !current.status.Running? then Failure(SteerConflict)
    else if current.pendingToolCall.Some? || current.pendingToolStarted || current.pendingClarification.Some? then Failure(SteerConflict)
    else if current.pendingSteers == [] then Success(Transition(current, []))
    else
      var next := current.(pendingSteers := []);
      if !Valid(next) then Failure(StateInvalid)
      else Success(Transition(next, [], consumed := current.pendingSteers))
  }

  function Interrupt(current: RuntimeState, expectedStateVersion: int): Outcome {
    if !Valid(current) then Failure(StateInvalid)
    else if expectedStateVersion < 1 || current.stateVersion != expectedStateVersion || current.status.Terminal() then Failure(InterruptConflict)
    else
      var cancelled := current.(
        stateVersion := current.stateVersion + 1, status := Cancelled, pendingSteers := [], pendingClarification := None,
        decisionFeedback := None, verification := None, failureCode := "");
      var next := if current.pendingToolStarted then cancelled else cancelled.(pendingToolCall := None, pendingToolStarted := false);
      if !Valid(next) then Failure(StateInvalid)
      else Success(Transition(next, [RunInterrupted]))
  }

  function BeginModelRequest(current: RuntimeState): Outcome {
    if !Valid(current) then Failure(StateInvalid)
    else if !current.status.Queued? then Failure(StatusConflict)
    else
      var next := current.(stateVersion := current.stateVersion + 1, status := Running);
      if !Valid(next) then Failure(StateInvalid)
      else Success(Transition(next, [RunStatusChanged]))
  }

  function Fail(current: RuntimeState, failureCode: string): Outcome {
    if !Advanceable(current) then Failure(NotAdvanceable)
    else if !ValidFailureCode(Trim(failureCode)) then Failure(FailureCodeInvalid)
    else
      Success(Transition(
                current.(stateVersion := current.stateVersion + 1, stepNumber := current.stepNumber + 1, status := Failed,
                pendingToolCall := None, pendingToolStarted := false, verification := None, failureCode := Trim(failureCode)),
                [RunFailed]))
  }

  function Terminate(current: RuntimeState, failureCode: string): Outcome {
    if !Valid(current) then Failure(StateInvalid)
    else if current.status.Terminal() then Failure(StatusConflict)
    else if !ValidFailureCode(Trim(failureCode)) then Failure(FailureCodeInvalid)
    else
      var lastToolResult :=
        if current.pendingToolCall.None? then current.lastToolResult
        else Some(ToolResult(current.pendingToolCall.value.toolCallId, current.pendingToolCall.value.actionVersion,
                             false, EMPTY_OUTPUT, Trim(failureCode)));
      Success(Transition(
                current.(stateVersion := current.stateVersion + 1, status := Failed, verification := None,
                failureCode := Trim(failureCode), lastToolResult := lastToolResult,
                pendingToolCall := None, pendingToolStarted := false, pendingClarification := None),
                if current.pendingToolCall.Some? then [ToolResulted, RunFailed] else [RunFailed]))
  }

  function ExpireRuntimeAt(current: RuntimeState, now: int): Outcome {
    if !Valid(current) then Failure(StateInvalid)
    else if now == 0 then Failure(TimeInvalid)
    else if current.limits.None? || current.status.Terminal() || now < current.limits.value.deadlineAt then
      Success(Transition(current, []))
    else Terminate(current, RUNTIME_DEADLINE_EXCEEDED)
  }

  datatype RuntimeInput = RuntimeInput(decision: ModelDecision, evidence: Delivery.Evidence)

  function Exhausted(s: RuntimeState): RuntimeState {
    s.(status := Failed, failureCode := STEP_BUDGET_EXHAUSTED)
  }

  function ContractChanged(current: RuntimeState): Transition {
    var next := current.(
      stateVersion := current.stateVersion + 1, stepNumber := current.stepNumber + 1, status := Running,
      pendingToolCall := None, pendingToolStarted := false, verification := None,
      decisionFeedback := Some(ContractChangedFeedback()),
      finalMessage := "", failureCode := "");
    if next.stepNumber >= next.maxSteps then Transition(Exhausted(next), [ModelRejected, RunFailed])
    else Transition(next, [ModelRejected, RunStatusChanged])
  }

  function CompletedByRequestId(history: seq<C.Completed>, requestId: string): (r: Option<C.Completed>)
    ensures r.Some? ==> r.value in history && r.value.request.requestId == requestId
    ensures r.None? <==> !CompletedRequest(history, requestId)
  {
    if history == [] then None
    else if history[0].request.requestId == requestId then Some(history[0])
    else CompletedByRequestId(history[1..], requestId)
  }

  function AdvanceClarification(next: RuntimeState, request: C.Request): Transition {
    if next.stepNumber >= next.maxSteps then Transition(Exhausted(next), [RunFailed])
    else if CompletedByRequestId(next.clarificationHistory, request.requestId).Some? then
      Transition(
        next.(status := Running, decisionFeedback := Some(IdentityReusedFeedback())),
        [ModelRejected, RunStatusChanged])
    else
      Transition(next.(status := WaitingInput, pendingClarification := Some(C.Pending(request, []))),
                 [ClarificationRequested, RunStatusChanged])
  }

  function AdvanceToolCall(next: RuntimeState, call: ToolCall): Transition
    requires CurrentTool(call.toolName)
  {
    if next.stepNumber >= next.maxSteps then Transition(Exhausted(next), [RunFailed])
    else if next.limits.Some? && next.limits.value.toolCallsUsed >= next.limits.value.maxToolCalls then
      Transition(next.(status := Failed, failureCode := "tool_call_budget_exhausted"), [RunFailed])
    else
      var limits :=
        if next.limits.None? then None
        else Some(next.limits.value.(toolCallsUsed := next.limits.value.toolCallsUsed + 1));
      var waiting := next.(limits := limits, status := WaitingTool, pendingToolCall := Some(TrimCall(call)));
      if ApprovalRequiredFor(RiskOf(call.toolName), next.configuration.executionMode) then
        Transition(waiting.(status := WaitingApproval), [ToolCalled, ApprovalRequired, RunStatusChanged])
      else Transition(waiting, [ToolCalled, RunStatusChanged])
  }

  function AdvanceFinal(next: RuntimeState, final: FinalDecision, evidence: Delivery.Evidence): Transition {
    var missing := MissingSkillDirs(next.configuration.skills, next.loadedSkillDirs);
    if missing != [] then
      var rejected := next.(finalMessage := "", decisionFeedback := Some(MissingSkillsFeedback(missing)));
      if next.stepNumber >= next.maxSteps then Transition(Exhausted(rejected), [ModelRejected, RunFailed])
      else Transition(rejected.(status := Running), [ModelRejected, RunStatusChanged])
    else
      var verification := Delivery.Verify(final.expectedDelivery, evidence);
      var verified := next.(verification := Some(verification), finalMessage := Trim(final.message));
      match verification.status
      case Satisfied => Transition(verified.(status := Succeeded), [AgentMessageCompleted, RunCompleted])
      case Failed => Transition(verified.(status := Failed, failureCode := "delivery_contract_invalid"), [RunFailed])
      case Repairable =>
        if next.stepNumber >= next.maxSteps then Transition(Exhausted(verified), [RunFailed])
        else Transition(verified.(status := Running), [RunStatusChanged])
  }

  /** The state a decision in line with the contract starts from. */
  function Cleared(current: RuntimeState, contract: Delivery.ExpectedDelivery): RuntimeState {
    current.(stateVersion := current.stateVersion + 1, stepNumber := current.stepNumber + 1,
    expectedDelivery := Some(contract), pendingToolCall := None, pendingToolStarted := false, lastToolResult := None,
    decisionFeedback := None, verification := None, failureCode := "", pendingClarification := None)
  }

  predicate ConflictsWithContract(current: RuntimeState, d: ModelDecision)
    requires d.final.Some? || d.toolCall.Some? || d.clarification.Some?
  {
    current.expectedDelivery.Some? && current.expectedDelivery.value != DecisionContract(d)
  }

  function AdvanceForToolSchema(current: RuntimeState, input: RuntimeInput, toolSchema: int): Outcome {
    var d := input.decision;
    if !Advanceable(current) then Failure(NotAdvanceable)
    else if !ValidDecision(d, toolSchema) then Failure(DecisionInvalid)
    else if ConflictsWithContract(current, d) then Success(ContractChanged(current))
    else
      var next := Cleared(current, DecisionContract(d));
      match d.kind
      case ClarificationKind => Success(AdvanceClarification(next, C.TrimRequest(d.clarification.value)))
      case ToolCallKind => Success(AdvanceToolCall(next, d.toolCall.value))
      case _ => Success(AdvanceFinal(next, d.final.value, input.evidence))
  }

  function AdvanceExternalDecision(current: RuntimeState, expectedStateVersion: int, input: RuntimeInput): Outcome {
    if !Valid(current) then Failure(StateInvalid)
    else if expectedStateVersion < 1 || current.stateVersion != expectedStateVersion || !current.status.Running? then Failure(ExternalConflict)
    else AdvanceForToolSchema(current, input, CURRENT_TOOL_SCHEMA)
  }

  function RejectModelDecision(current: RuntimeState, feedback: Feedback): Outcome {
    if !Advanceable(current) then Failure(NotAdvanceable)
    else if !ValidFeedback(feedback) then Failure(FeedbackInvalid)
    else
      var next := current.(
        stateVersion := current.stateVersion + 1, stepNumber := current.stepNumber + 1, status := Running,
        pendingToolCall := None, pendingToolStarted := false,
        decisionFeedback := Some(feedback.(reason := Trim(feedback.reason))),
        verification := None, finalMessage := "", failureCode := "");
      if next.stepNumber >= next.maxSteps then Success(Transition(Exhausted(next), [ModelRejected, RunFailed]))
      else Success(Transition(next, [ModelRejected, RunStatusChanged]))
  }

  const REUSED_OUTPUT := Output("{\"reason\":\"toolCallId and actionVersion were already used\"}", true, None)

  function RejectReusedToolIdentity(current: RuntimeState, call: ToolCall): Outcome {
    if !Advanceable(current) then Failure(NotAdvanceable)
    else if !ValidCall(call) then Failure(DecisionInvalid)
    else
      var next := current.(
        stateVersion := current.stateVersion + 1, stepNumber := current.stepNumber + 1,
        pendingToolCall := None, pendingToolStarted := false, verification := None, finalMessage := "", failureCode := "",
        decisionFeedback := None,
        lastToolResult := Some(ToolResult(Trim(call.toolCallId), call.actionVersion, false, REUSED_OUTPUT, "tool_identity_reused")));
      if next.stepNumber >= next.maxSteps then Success(Transition(Exhausted(next), [ToolResulted, RunFailed]))
      else Success(Transition(next.(status := Running), [ToolResulted, RunStatusChanged]))
  }

  datatype FailureClass = NoFailure | AgentRepairable | TerminalFailure | UnknownFailureClass
  datatype ToolFailure = ToolFailure(call: ToolCall, failureClass: FailureClass, errorCode: string, output: Output)

  function RejectToolDecision(current: RuntimeState, failure: ToolFailure): Outcome {
    if !Advanceable(current) then Failure(NotAdvanceable)
    else if !ValidCall(failure.call) then Failure(DecisionInvalid)
    else if !ValidFailureCode(Trim(failure.errorCode)) || !ValidOutput(failure.output) then Failure(ResultInvalid)
    else if !failure.failureClass.AgentRepairable? && !failure.failureClass.TerminalFailure? then Failure(ResultInvalid)
    else if current.expectedDelivery.Some? && current.expectedDelivery.value != failure.call.expectedDelivery then Failure(DecisionInvalid)
    else
      var call := TrimCall(failure.call);
      var next := current.(
        stateVersion := current.stateVersion + 1, stepNumber := current.stepNumber + 1, status := Running,
        pendingToolCall := None, pendingToolStarted := false, decisionFeedback := None, verification := None,
        finalMessage := "", failureCode := "", expectedDelivery := Some(call.expectedDelivery),
        lastToolResult := Some(ToolResult(call.toolCallId, call.actionVersion, false, failure.output, Trim(failure.errorCode))));
      if failure.failureClass.TerminalFailure? then
        Success(Transition(next.(status := Failed, failureCode := Trim(failure.errorCode)), [ToolResulted, RunFailed], rejectedCall := Some(call)))
      else if next.stepNumber >= next.maxSteps then
        Success(Transition(Exhausted(next), [ToolResulted, RunFailed], rejectedCall := Some(call)))
      else Success(Transition(next, [ToolResulted, RunStatusChanged], rejectedCall := Some(call)))
  }

  datatype ToolResolution = ToolResolution(
    toolCallId: string, actionVersion: int, succeeded: bool, output: Output, errorCode: string, failureClass: FailureClass)

  /** A success carries no failure facts; a failure carries a code and a known class. */
  predicate ConsistentResolution(r: ToolResolution) {
    if r.succeeded then Trim(r.errorCode) == "" && r.failureClass.NoFailure?
    else ValidFailureCode(Trim(r.errorCode)) && (r.failureClass.AgentRepairable? || r.failureClass.TerminalFailure?)
  }

  predicate Identifies(toolCallId: string, actionVersion: int, call: ToolCall) {
    Trim(toolCallId) == call.toolCallId && actionVersion == call.actionVersion
  }

  function ResultOf(r: ToolResolution): ToolResult {
    ToolResult(Trim(r.toolCallId), r.actionVersion, r.succeeded, r.output, Trim(r.errorCode))
  }

  /** The loaded directory, when the result is that of a skill frozen in the configuration. */
  function ResolvedSkillDir(skills: seq<Skill>, output: Output): (r: Option<string>)
    ensures r.Some? ==> Selected(skills, r.value)
    ensures r.Some? ==> output.skillsLoad.Some? && output.skillsLoad.value.dir == r.value
  {
    match output.skillsLoad
    case None => None
    case Some(result) =>
      var frozen := Skill(result.dir, result.version, result.checksum, result.instructions);
      if frozen in skills then Some(result.dir) else None
  }

  function ResolveTool(current: RuntimeState, r: ToolResolution): Outcome {
    if !Valid(current) then Failure(StateInvalid)
    else if !current.status.WaitingTool? || current.pendingToolCall.None? then Failure(StatusConflict)
    else
      var call := current.pendingToolCall.value;
      if !Identifies(r.toolCallId, r.actionVersion, call) then Failure(IdentityInvalid)
      else if !ValidOutput(r.output) || !ConsistentResolution(r) then Failure(ResultInvalid)
      else
        var loads := r.succeeded && call.toolName.SkillsLoad?;
        var loaded := ResolvedSkillDir(current.configuration.skills, r.output);
        if loads && loaded.None? then Failure(ResultInvalid)
        else
          var next := current.(
            stateVersion := current.stateVersion + 1, status := Running, pendingToolCall := None, pendingToolStarted := false,
            lastToolResult := Some(ResultOf(r)),
            loadedSkillDirs := if loads then AddLoadedSkillDir(current.loadedSkillDirs, loaded.value) else current.loadedSkillDirs);
          if !r.succeeded && r.failureClass.TerminalFailure? then
            Success(Transition(next.(status := Failed, failureCode := Trim(r.errorCode)), [ToolResulted, RunFailed]))
          else if next.stepNumber >= next.maxSteps then Success(Transition(Exhausted(next), [ToolResulted, RunFailed]))
          else Success(Transition(next, [ToolResulted, RunStatusChanged]))
  }

  datatype ToolExecution = ToolExecution(toolCallId: string, actionVersion: int)

  function BeginToolExecution(current: RuntimeState, execution: ToolExecution): Outcome {
    if !Valid(current) then Failure(StateInvalid)
    else if !current.status.WaitingTool? || current.pendingToolCall.None? || current.pendingToolStarted then Failure(StatusConflict)
    else if !Identifies(execution.toolCallId, execution.actionVersion, current.pendingToolCall.value) then Failure(IdentityInvalid)
    else Success(Transition(current.(stateVersion := current.stateVersion + 1, pendingToolStarted := true), [ToolStarted]))
  }

  datatype ApprovalDecision = Approve | Reject | UnknownApproval
  datatype ToolApproval = ToolApproval(toolCallId: string, actionVersion: int, decision: ApprovalDecision, proposalHash: string)

  function SyntheticResult(call: ToolCall, errorCode: string): ToolResult {
    ToolResult(call.toolCallId, call.actionVersion, false, EMPTY_OUTPUT, errorCode)
  }

  function ReviewToolApproval(current: RuntimeState, a: ToolApproval): Outcome {
    if !Valid(current) then Failure(StateInvalid)
    else if !current.status.WaitingApproval? || current.pendingToolCall.None? then Failure(StatusConflict)
    else
      var call := current.pendingToolCall.value;
      var next := current.(stateVersion := current.stateVersion + 1);
      var hash := Trim(a.proposalHash);
      if !Identifies(a.toolCallId, a.actionVersion, call) then Failure(IdentityInvalid)
      else
        match a.decision
        case Approve =>
          if next.stepNumber >= next.maxSteps then
            Success(Transition(
                      Exhausted(next.(pendingToolCall := None, pendingToolStarted := false,
                                lastToolResult := Some(SyntheticResult(call, STEP_BUDGET_EXHAUSTED)))),
                      [ApprovalDecided, ToolResulted, RunFailed], approval := Some(Approved), proposalHash := hash))
          else
            Success(Transition(next.(status := WaitingTool),
                               [ApprovalDecided, RunStatusChanged], approval := Some(Approved), proposalHash := hash))
        case Reject =>
          var rejected := next.(status := Running, pendingToolCall := None, pendingToolStarted := false,
                          lastToolResult := Some(SyntheticResult(call, "tool_approval_rejected")), failureCode := "");
          if next.stepNumber >= next.maxSteps then
            Success(Transition(Exhausted(rejected), [ApprovalDecided, ToolResulted, RunFailed], approval := Some(Rejected), proposalHash := hash))
          else Success(Transition(rejected, [ApprovalDecided, ToolResulted, RunStatusChanged], approval := Some(Rejected), proposalHash := hash))
        case UnknownApproval => Failure(ApprovalInvalid)
  }

  // `hashValid` says whether the proposal hash has the form of a SHA-256 digest.
  datatype InvalidationCause = ProposalExpired | ProposalMismatch | UnknownCause
  datatype ToolApprovalInvalidation = ToolApprovalInvalidation(
    toolCallId: string, actionVersion: int, proposalHash: string, hashValid: bool, cause: InvalidationCause)

  function CauseCode(cause: InvalidationCause): string {
    if cause.ProposalExpired? then "approval_proposal_expired" else "approval_proposal_mismatch"
  }

  function InvalidateToolApproval(current: RuntimeState, i: ToolApprovalInvalidation): Outcome {
    if !Valid(current) then Failure(StateInvalid)
    else if !current.status.WaitingApproval? || current.pendingToolCall.None? then Failure(StatusConflict)
    else
      var call := current.pendingToolCall.value;
      if !Identifies(i.toolCallId, i.actionVersion, call) then Failure(IdentityInvalid)
      else if !i.hashValid || i.cause.UnknownCause? then Failure(ApprovalInvalid)
      else
        var next := current.(
          stateVersion := current.stateVersion + 1, status := Running, pendingToolCall := None, pendingToolStarted := false,
          lastToolResult := Some(SyntheticResult(call, CauseCode(i.cause))), failureCode := "");
        if next.stepNumber >= next.maxSteps then
          Success(Transition(Exhausted(next), [ToolResulted, RunFailed], approval := Some(Invalidated), proposalHash := Trim(i.proposalHash)))
        else Success(Transition(next, [ToolResulted, RunStatusChanged], approval := Some(Invalidated), proposalHash := Trim(i.proposalHash)))
  }

  datatype ToolReplay = ToolReplay(
    call: ToolCall, sourceRunId: string, sourceToolCallId: string, sourceActionVersion: int, result: ToolResolution)

  function ReplayResolvedTool(current: RuntimeState, pending: Transition, replay: ToolReplay): Outcome {
    var p := pending.state;
    if !Advanceable(current) then Failure(NotAdvanceable)
    else if !p.status.WaitingApproval? || p.pendingToolCall.None? || p.pendingToolStarted ||
            p.stateVersion != current.stateVersion + 1 || p.stepNumber != current.stepNumber + 1
    then Failure(ReplayInvalid)
    else
      var call := p.pendingToolCall.value;
      var r := replay.result;
      if replay.call.toolCallId != call.toolCallId || replay.call.actionVersion != call.actionVersion ||
         replay.call.toolName != call.toolName || replay.call.arguments.canonical != call.arguments.canonical ||
         Trim(replay.sourceRunId) == "" || Trim(replay.sourceToolCallId) == "" || replay.sourceActionVersion < 1
      then Failure(ReplayInvalid)
      else if !Identifies(r.toolCallId, r.actionVersion, call) || !ValidOutput(r.output) || !ConsistentResolution(r) then Failure(ReplayInvalid)
      else
        var next := p.(status := Running, pendingToolCall := None, pendingToolStarted := false, lastToolResult := Some(ResultOf(r)));
        if !r.succeeded && r.failureClass.TerminalFailure? then
          Success(Transition(next.(status := Failed, failureCode := Trim(r.errorCode)),
                             [ToolCalled, ToolResulted, RunFailed], toolReplay := Some(replay)))
        else Success(Transition(next, [ToolCalled, ToolResulted, RunStatusChanged], toolReplay := Some(replay)))
  }

  datatype Submission = Submission(
    requestId: string, expectedStateVersion: int, questionId: string, answer: C.AnswerInput, complete: bool)

  /** A submission against a request that is already completed is accepted only as the
      very submission that completed it. */
  function ReplayClarification(current: RuntimeState, completed: C.Completed, s: Submission): Outcome {
    var questionId := Trim(s.questionId);
    match C.CanonicalAnswer(completed.request, questionId, s.answer)
    case Failure(_) => Failure(AnswerRejected)
    case Success(answer) =>
      if s.complete && questionId == completed.completionQuestionId &&
         s.expectedStateVersion == completed.completionExpectedStateVersion &&
         C.AnswerFor(completed.answers, questionId) == Some(answer)
      then Success(Transition(current, [], replayed := true))
      else Failure(ClarificationConflict)
  }

  function AnswerPending(current: RuntimeState, pending: C.Pending, s: Submission): Outcome {
    match C.CanonicalAnswer(pending.request, Trim(s.questionId), s.answer)
    case Failure(_) => Failure(AnswerRejected)
    case Success(answer) =>
      var answerChanged := C.AnswerFor(pending.answers, Trim(s.questionId)) != Some(answer);
      if !s.complete && !answerChanged then Success(Transition(current, [], replayed := true))
      else if s.expectedStateVersion != current.stateVersion then Failure(VersionConflict)
      else
        var answers := C.Upsert(pending.request, pending.answers, answer);
        if s.complete && !C.Complete(pending.request, answers) then Failure(ClarificationIncomplete)
        else
          var saved := if answerChanged then [ClarificationAnswerSaved] else [];
          var next := current.(stateVersion := current.stateVersion + 1, pendingClarification := Some(C.Pending(pending.request, answers)));
          if !s.complete then Success(Transition(next, saved))
          else
            var completed := C.Completed(pending.request, answers, Trim(s.questionId), s.expectedStateVersion);
            Success(Transition(
                      next.(status := Running, clarificationHistory := next.clarificationHistory + [completed], pendingClarification := None),
                      saved + [ClarificationResponded, RunStatusChanged]))
  }

  function ApplyClarificationResponse(current: RuntimeState, s: Submission): Outcome {
    if !Valid(current) then Failure(StateInvalid)
    else if !C.BoundedText(Trim(s.requestId), 120) || !C.BoundedText(Trim(s.questionId), 120) || s.expectedStateVersion < 1
    then Failure(AnswerRejected)
    else
      match CompletedByRequestId(current.clarificationHistory, Trim(s.requestId))
      case Some(completed) => ReplayClarification(current, completed, s)
      case None =>
        if !current.status.WaitingInput? || current.pendingClarification.None? then Failure(ClarificationConflict)
        else if current.pendingClarification.value.request.requestId != Trim(s.requestId) then Failure(ClarificationConflict)
        else AnswerPending(current, current.pendingClarification.value, s)
  }
}
