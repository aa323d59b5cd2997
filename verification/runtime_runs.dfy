/** Whole runs: what holds of every state and every event of every run. */
module RuntimeRuns {
  import opened Text
  import opened Ordering
  import opened Runtime
  import opened RuntimeSteps
  import Delivery
  import C = Clarification

  // ---------------------------------------------------------------- runs

  predicate Initial(s: RuntimeState) {
    && Valid(s)
    && s.stateVersion == 1 && s.stepNumber == 0 && s.status.Queued?
    && s.expectedDelivery.None? && s.verification.None? && s.pendingToolCall.None? && !s.pendingToolStarted
    && s.pendingClarification.None? && s.clarificationHistory == [] && s.lastToolResult.None? && s.decisionFeedback.None?
    && s.finalMessage == "" && s.failureCode == "" && s.loadedSkillDirs == [] && s.pendingSteers == []
    && (s.limits.Some? ==> s.limits.value.toolCallsUsed == 0)
  }

  datatype Step = Step(op: Op, out: Transition)

  /** The state after the first n steps. */
  function StateAt(init: RuntimeState, run: seq<Step>, n: nat): RuntimeState
    requires n <= |run|
  {
    if n == 0 then init else run[n - 1].out.state
  }

  ghost predicate IsRun(init: RuntimeState, run: seq<Step>) {
    && Initial(init)
    && forall i :: 0 <= i < |run| ==> Apply(StateAt(init, run, i), run[i].op) == Success(run[i].out)
  }

  // ---------------------------------------------------------------- what one step keeps

  /** Facts that only ever grow: the frozen parts stay, the history is appended to, and neither
      the version nor the step number goes back. */
  predicate Grows(s: RuntimeState, t: RuntimeState) {
    && t.userMessage == s.userMessage && t.configuration == s.configuration && t.maxSteps == s.maxSteps
    && s.stateVersion <= t.stateVersion && s.stepNumber <= t.stepNumber
    && (s.stepNumber <= s.maxSteps ==> t.stepNumber <= t.maxSteps)
    && (s.expectedDelivery.Some? ==> t.expectedDelivery == s.expectedDelivery)
    && s.clarificationHistory <= t.clarificationHistory
    && (s.limits.None? <==> t.limits.None?)
    && (s.limits.Some? ==>
         && t.limits.value == s.limits.value.(toolCallsUsed := t.limits.value.toolCallsUsed)
         && (s.limits.value.toolCallsUsed <= s.limits.value.maxToolCalls ==> t.limits.value.toolCallsUsed <= t.limits.value.maxToolCalls))
  }

  /** Terminal states accept only requests that change nothing. */
  lemma TerminalIsAbsorbing(s: RuntimeState, op: Op)
    requires s.status.Terminal() && Apply(s, op).Success?
    ensures Apply(s, op).value.state == s && Apply(s, op).value.events == [] && Apply(s, op).value.consumed == []
  {
    hide Valid, ValidDecision, ValidCall, ValidFeedback, ValidOutput, ConsistentResolution, ValidFailureCode, Trim;
    hide AdvanceFinal, AdvanceToolCall, AdvanceClarification, ContractChanged, Cleared, AnswerPending, C.CanonicalAnswer,
      C.BoundedText;
  }

  /** Where a live run stands: a tool call is pending exactly while it is waited for, and steps remain. */
  predicate Live(s: RuntimeState) {
    && (s.status.Succeeded? || s.status.Failed? ==> s.pendingToolCall.None?)
    && (!s.status.Terminal() ==>
      && (s.pendingToolCall.Some? <==> s.status.WaitingTool? || s.status.WaitingApproval?)
      && (s.pendingToolStarted ==> s.status.WaitingTool?)
      && (s.status.WaitingInput? <==> s.pendingClarification.Some?)
      && s.stepNumber < s.maxSteps
      && (s.pendingToolCall.Some? ==> CurrentTool(s.pendingToolCall.value.toolName)))
  }

  // Bounds every run: four for each remaining step, plus what the current wait still takes.
  function Phase(s: RuntimeState): nat {
    match s.status
    case Queued => 2
    case Running => 1
    case WaitingInput => 2
    case WaitingApproval => 4
    case WaitingTool => if s.pendingToolStarted then 2 else 3
    case _ => 0
  }

  function Measure(s: RuntimeState): int {
    4 * (s.maxSteps - s.stepNumber) + Phase(s)
  }

  /** Steers, their consumption, saved partial answers and requests that change nothing. */
  predicate Idle(s: RuntimeState, op: Op, out: Transition) {
    out.state == s || op.SteerRun? || op.ConsumeSteers? || (op.Clarify? && !op.submission.complete)
  }

  datatype ToolEvent = Called(toolCallId: string, actionVersion: int) | Resulted(toolCallId: string, actionVersion: int)

  function IssuedCall(out: Transition): Option<ToolCall> {
    if out.state.pendingToolCall.Some? then out.state.pendingToolCall
    else if out.toolReplay.Some? then Some(out.toolReplay.value.call)
    else None
  }

  /** The tool events of a step with the identities they carry. */
  function ToolEvents(out: Transition): seq<ToolEvent> {
    (if ToolCalled in out.events && IssuedCall(out).Some? then
       [Called(IssuedCall(out).value.toolCallId, IssuedCall(out).value.actionVersion)] else []) +
    (if ToolResulted in out.events && out.state.lastToolResult.Some? then
       [Resulted(out.state.lastToolResult.value.toolCallId, out.state.lastToolResult.value.actionVersion)] else [])
  }

  function CallEvent(call: ToolCall): ToolEvent { Called(call.toolCallId, call.actionVersion) }
  function ResultEvent(call: ToolCall): ToolEvent { Resulted(call.toolCallId, call.actionVersion) }

  function UsedCalls(s: RuntimeState): int {
    if s.limits.None? then 0 else s.limits.value.toolCallsUsed
  }

  function DecisionOf(op: Op): Option<ModelDecision> {
    match op
    case Advance(input, _) => Some(input.decision)
    case AdvanceExternal(_, input) => Some(input.decision)
    case Replay(input, _, _) => Some(input.decision)
    case _ => None
  }

  function EvidenceOf(op: Op): Option<Delivery.Evidence> {
    match op
    case Advance(input, _) => Some(input.evidence)
    case AdvanceExternal(_, input) => Some(input.evidence)
    case _ => None
  }

  predicate Risky(call: ToolCall) {
    CurrentTool(call.toolName) && !RiskOf(call.toolName).ReadRisk?
  }

  predicate Deciding(s: RuntimeState) { s.status.Queued? || s.status.Running? }

  function Counted(s: RuntimeState): int { if s.limits.None? then 0 else 1 }

  /** No tool event: the pending call stays, or an interruption drops it. */
  predicate Silent(s: RuntimeState, out: Transition) {
    && ToolEvents(out) == [] && ToolCalled !in out.events
    && UsedCalls(out.state) == UsedCalls(s)
    && (out.state.pendingToolCall == s.pendingToolCall ||
         (out.state.pendingToolCall.None? && (out.state.status.Cancelled? || Deciding(s))))
  }

  /** The decision's call becomes the pending one; a risky call waits for approval first. */
  predicate Issues(s: RuntimeState, op: Op, out: Transition) {
    && Deciding(s) && out.state.pendingToolCall.Some?
    && var call := out.state.pendingToolCall.value;
       && ToolEvents(out) == [CallEvent(call)]
       && UsedCalls(out.state) == UsedCalls(s) + Counted(s)
       && DecisionOf(op).Some? && DecisionOf(op).value.toolCall.Some? && call == TrimCall(DecisionOf(op).value.toolCall.value)
       && (Risky(call) ==> out.state.status.WaitingApproval?)
  }

  /** A result ends the pending call, or stands for a call that was refused before it was issued. */
  predicate Settles(s: RuntimeState, out: Transition) {
    && out.state.pendingToolCall.None? && ToolCalled !in out.events
    && |ToolEvents(out)| == 1 && ToolEvents(out)[0].Resulted?
    && UsedCalls(out.state) == UsedCalls(s)
    && (s.pendingToolCall.Some? ==> Deciding(s) || ToolEvents(out) == [ResultEvent(s.pendingToolCall.value)])
  }

  /** A replay issues and settles its call at once. */
  predicate IssuesAndSettles(s: RuntimeState, out: Transition) {
    && Deciding(s) && out.state.pendingToolCall.None? && out.toolReplay.Some?
    && ToolEvents(out) == [CallEvent(out.toolReplay.value.call), ResultEvent(out.toolReplay.value.call)]
    && UsedCalls(out.state) == UsedCalls(s) + Counted(s)
  }

  predicate ToolFacts(s: RuntimeState, op: Op, out: Transition) {
    Silent(s, out) || Issues(s, op, out) || Settles(s, out) || IssuesAndSettles(s, out)
  }

  predicate Approves(op: Op, call: ToolCall) {
    op.Review? && op.review.decision.Approve? && Identifies(op.review.toolCallId, op.review.actionVersion, call)
  }

  predicate ApprovalFacts(s: RuntimeState, op: Op, out: Transition) {
    var t := out.state;
    && (t.status.WaitingTool? && t.pendingToolCall.Some? && Risky(t.pendingToolCall.value) && ToolCalled !in out.events ==>
         && s.pendingToolCall == t.pendingToolCall
         && (s.status.WaitingTool? || (s.status.WaitingApproval? && Approves(op, t.pendingToolCall.value))))
    && (ToolStarted in out.events ==>
         op.BeginTool? && s.status.WaitingTool? && s.pendingToolCall.Some? && !s.pendingToolStarted && t.pendingToolCall == s.pendingToolCall)
  }

  /** The steer a step newly accepts. */
  function AcceptedSteer(op: Op, out: Transition): seq<Steer> {
    if op.SteerRun? && RunSteered in out.events then [Steer(Trim(op.request.clientRequestId), Trim(op.request.message))] else []
  }

  predicate SteerFacts(s: RuntimeState, op: Op, out: Transition) {
    var accepted := AcceptedSteer(op, out);
    && (if op.InterruptRun? then
          out.state.status.Cancelled? && out.state.pendingSteers == [] && out.consumed == [] && accepted == []
        else s.pendingSteers + accepted == out.consumed + out.state.pendingSteers)
    && (accepted != [] ==> s.stateVersion == op.request.expectedStateVersion && out.state.stateVersion == s.stateVersion + 1)
    && (out.state.status.Cancelled? && !s.status.Cancelled? ==> op.InterruptRun?)
  }

  predicate SuccessFacts(s: RuntimeState, op: Op, out: Transition) {
    out.state.status.Succeeded? && !s.status.Succeeded? ==>
      && DecisionOf(op).Some? && EvidenceOf(op).Some? && DecisionOf(op).value.final.Some?
      && var final := DecisionOf(op).value.final.value;
         && out.state.expectedDelivery == Some(final.expectedDelivery)
         && Delivery.Verify(final.expectedDelivery, EvidenceOf(op).value).status.Satisfied?
         && MissingSkillDirs(s.configuration.skills, s.loadedSkillDirs) == []
         && out.state.loadedSkillDirs == s.loadedSkillDirs
         && out.state.finalMessage == Trim(final.message) != ""
  }

  /** This step resolved the load of a skill frozen in the configuration. */
  predicate Loads(s: RuntimeState, op: Op, dir: string) {
    && op.Resolve? && op.resolution.succeeded && s.pendingToolCall.Some? && s.pendingToolCall.value.toolName.SkillsLoad?
    && ResolvedSkillDir(s.configuration.skills, op.resolution.output) == Some(dir)
  }

  predicate LoadFacts(s: RuntimeState, op: Op, out: Transition) {
    || out.state.loadedSkillDirs == s.loadedSkillDirs
    || (op.Resolve? && op.resolution.output.skillsLoad.Some?
        && Loads(s, op, op.resolution.output.skillsLoad.value.dir)
        && out.state.loadedSkillDirs == AddLoadedSkillDir(s.loadedSkillDirs, op.resolution.output.skillsLoad.value.dir))
  }

  /** The state grows, a live one stays live, and the measure falls unless the step is idle. */
  predicate Moves(s: RuntimeState, op: Op, out: Transition) {
    && Grows(s, out.state)
    && (Live(s) ==> Live(out.state))
    && (if Idle(s, op, out) then Measure(out.state) == Measure(s) else Measure(out.state) < Measure(s))
  }

  /** Everything the run theorems need of one accepted step. */
  predicate StepFacts(s: RuntimeState, op: Op, out: Transition) {
    && Moves(s, op, out)
    && ToolFacts(s, op, out)
    && ApprovalFacts(s, op, out)
    && SteerFacts(s, op, out)
    && SuccessFacts(s, op, out)
    && LoadFacts(s, op, out)
  }

  lemma RejectModelStepFacts(s: RuntimeState, feedback: Feedback, out: Transition)
    requires RejectModelDecision(s, feedback) == Success(out)
    ensures StepFacts(s, RejectModel(feedback), out)
  {
    hide Valid, Trim, Utf8Len, Delivery.Verify, MissingSkillDirs, ValidFeedback, Risky;
  }

  lemma RejectReusedStepFacts(s: RuntimeState, call: ToolCall, out: Transition)
    requires RejectReusedToolIdentity(s, call) == Success(out)
    ensures StepFacts(s, RejectReused(call), out)
  {
    hide Valid, Trim, Utf8Len, Delivery.Verify, MissingSkillDirs, ValidCall;
  }

  lemma RejectToolMoves(s: RuntimeState, failure: ToolFailure, out: Transition)
    requires RejectToolDecision(s, failure) == Success(out)
    ensures Moves(s, RejectTool(failure), out)
  {
    hide Valid, Trim, Utf8Len, Delivery.Verify, MissingSkillDirs, ValidCall, ValidOutput, ValidFailureCode;
  }

  /** A step that ends without a pending call and starts nothing has nothing to be approved. */
  lemma SettledNeedsNoApproval(s: RuntimeState, op: Op, out: Transition)
    requires Settles(s, out) && ToolStarted !in out.events
    ensures ToolFacts(s, op, out) && ApprovalFacts(s, op, out)
  {
    hide ToolEvents, UsedCalls, Risky, Trim;
  }

  lemma RejectToolSettles(s: RuntimeState, failure: ToolFailure, out: Transition)
    requires RejectToolDecision(s, failure) == Success(out)
    ensures Settles(s, out) && ToolStarted !in out.events
  {
    hide Valid, Trim, ValidCall, ValidOutput, ValidFailureCode;
  }

  lemma RejectToolToolFacts(s: RuntimeState, failure: ToolFailure, out: Transition)
    requires RejectToolDecision(s, failure) == Success(out)
    ensures ToolFacts(s, RejectTool(failure), out) && ApprovalFacts(s, RejectTool(failure), out)
  {
    hide RejectToolDecision, Settles, ToolFacts, ApprovalFacts;
    RejectToolSettles(s, failure, out);
    SettledNeedsNoApproval(s, RejectTool(failure), out);
  }

  lemma RejectToolStepFacts(s: RuntimeState, failure: ToolFailure, out: Transition)
    requires RejectToolDecision(s, failure) == Success(out)
    ensures StepFacts(s, RejectTool(failure), out)
  {
    hide Valid, Trim, Utf8Len, Delivery.Verify, MissingSkillDirs, ValidCall, ValidOutput, ValidFailureCode, Moves, ToolFacts,
      ApprovalFacts;
    RejectToolMoves(s, failure, out);
    RejectToolToolFacts(s, failure, out);
  }

  lemma ResolveSettles(s: RuntimeState, r: ToolResolution, out: Transition)
    requires ResolveTool(s, r) == Success(out)
    ensures Settles(s, out) && ToolStarted !in out.events
  {
    hide Valid, Trim, AddLoadedSkillDir, ResolvedSkillDir, ConsistentResolution, ValidOutput;
  }

  lemma ResolveToolFacts(s: RuntimeState, r: ToolResolution, out: Transition)
    requires ResolveTool(s, r) == Success(out)
    ensures ToolFacts(s, Resolve(r), out) && ApprovalFacts(s, Resolve(r), out)
  {
    hide ResolveTool, Settles, ToolFacts, ApprovalFacts;
    ResolveSettles(s, r, out);
    SettledNeedsNoApproval(s, Resolve(r), out);
  }

  lemma ResolveMoves(s: RuntimeState, r: ToolResolution, out: Transition)
    requires ResolveTool(s, r) == Success(out)
    ensures Moves(s, Resolve(r), out)
  {
    hide Valid, Trim, AddLoadedSkillDir, ConsistentResolution, ValidOutput, ValidFailureCode, ToolFacts, ApprovalFacts,
      Identifies;
  }

  lemma ResolveStepFacts(s: RuntimeState, r: ToolResolution, out: Transition)
    requires ResolveTool(s, r) == Success(out)
    ensures StepFacts(s, Resolve(r), out)
  {
    hide Valid, Trim, AddLoadedSkillDir, ConsistentResolution, ValidOutput, ValidFailureCode, ToolFacts, ApprovalFacts,
      Identifies, Moves;
    ResolveMoves(s, r, out);
    ResolveToolFacts(s, r, out);
  }

  lemma BeginToolStepFacts(s: RuntimeState, execution: ToolExecution, out: Transition)
    requires BeginToolExecution(s, execution) == Success(out)
    ensures StepFacts(s, BeginTool(execution), out)
  {
    hide Valid, Trim, Utf8Len, Delivery.Verify, MissingSkillDirs, ValidFeedback;
  }

  lemma ReviewStepFacts(s: RuntimeState, review: ToolApproval, out: Transition)
    requires ReviewToolApproval(s, review) == Success(out)
    ensures StepFacts(s, Review(review), out)
  {
    hide StepFacts, ReviewToolApproval;
    if review.decision.Approve? {
      ApproveStepFacts(s, review, out);
    } else {
      RejectStepFacts(s, review, out);
    }
  }

  lemma ApproveMoves(s: RuntimeState, review: ToolApproval, out: Transition)
    requires review.decision.Approve? && ReviewToolApproval(s, review) == Success(out)
    ensures Moves(s, Review(review), out)
  {
    hide Valid, Trim, Utf8Len, Delivery.Verify, MissingSkillDirs, Identifies;
  }

  lemma ApproveToolFacts(s: RuntimeState, review: ToolApproval, out: Transition)
    requires review.decision.Approve? && ReviewToolApproval(s, review) == Success(out)
    ensures ToolFacts(s, Review(review), out) && ApprovalFacts(s, Review(review), out)
  {
    hide Valid, Trim, Utf8Len, Delivery.Verify, MissingSkillDirs, Identifies;
  }

  lemma ApproveStepFacts(s: RuntimeState, review: ToolApproval, out: Transition)
    requires review.decision.Approve? && ReviewToolApproval(s, review) == Success(out)
    ensures StepFacts(s, Review(review), out)
  {
    hide Valid, Trim, Utf8Len, Delivery.Verify, MissingSkillDirs, Identifies, Moves, ToolFacts, ApprovalFacts;
    ApproveMoves(s, review, out);
    ApproveToolFacts(s, review, out);
  }

  lemma RejectMoves(s: RuntimeState, review: ToolApproval, out: Transition)
    requires !review.decision.Approve? && ReviewToolApproval(s, review) == Success(out)
    ensures Moves(s, Review(review), out)
  {
    hide Valid, Trim, Utf8Len, Delivery.Verify, MissingSkillDirs, Identifies;
  }

  lemma RejectToolFacts(s: RuntimeState, review: ToolApproval, out: Transition)
    requires !review.decision.Approve? && ReviewToolApproval(s, review) == Success(out)
    ensures ToolFacts(s, Review(review), out) && ApprovalFacts(s, Review(review), out)
  {
    hide Valid, Trim, Utf8Len, Delivery.Verify, MissingSkillDirs, Identifies;
  }

  lemma RejectStepFacts(s: RuntimeState, review: ToolApproval, out: Transition)
    requires !review.decision.Approve? && ReviewToolApproval(s, review) == Success(out)
    ensures StepFacts(s, Review(review), out)
  {
    hide Valid, Trim, Utf8Len, Delivery.Verify, MissingSkillDirs, Identifies, Moves, ToolFacts, ApprovalFacts;
    RejectMoves(s, review, out);
    RejectToolFacts(s, review, out);
  }

  lemma InvalidateMoves(s: RuntimeState, invalidation: ToolApprovalInvalidation, out: Transition)
    requires InvalidateToolApproval(s, invalidation) == Success(out)
    ensures Moves(s, Invalidate(invalidation), out)
  {
    hide Valid, Trim, Utf8Len, Delivery.Verify, MissingSkillDirs, CauseCode;
  }

  lemma InvalidateToolFacts(s: RuntimeState, invalidation: ToolApprovalInvalidation, out: Transition)
    requires InvalidateToolApproval(s, invalidation) == Success(out)
    ensures ToolFacts(s, Invalidate(invalidation), out) && ApprovalFacts(s, Invalidate(invalidation), out)
  {
    hide Valid, Trim, Utf8Len, Delivery.Verify, MissingSkillDirs, CauseCode;
  }

  lemma InvalidateStepFacts(s: RuntimeState, invalidation: ToolApprovalInvalidation, out: Transition)
    requires InvalidateToolApproval(s, invalidation) == Success(out)
    ensures StepFacts(s, Invalidate(invalidation), out)
  {
    hide Valid, Trim, Utf8Len, Delivery.Verify, MissingSkillDirs, CauseCode, Moves, ToolFacts, ApprovalFacts;
    InvalidateMoves(s, invalidation, out);
    InvalidateToolFacts(s, invalidation, out);
  }

  /** A saved answer moves nothing but the version and the pending record; a completing one also
      ends the wait. */
  predicate AnswerShape(s: RuntimeState, submission: Submission, out: Transition) {
    var t := out.state;
    && out.consumed == [] && out.toolReplay.None?
    && ToolCalled !in out.events && ToolResulted !in out.events && ToolStarted !in out.events && RunSteered !in out.events
    && (t == s || (s.status.WaitingInput? && s.pendingClarification.Some? &&
         t == s.(stateVersion := s.stateVersion + 1, status := t.status, pendingClarification := t.pendingClarification,
              clarificationHistory := t.clarificationHistory) &&
         s.clarificationHistory <= t.clarificationHistory &&
         (if submission.complete then t.status.Running? && t.pendingClarification.None?
          else t.status.WaitingInput? && t.pendingClarification.Some?)))
  }

  lemma AnswersHaveShape(s: RuntimeState, submission: Submission, out: Transition)
    requires ApplyClarificationResponse(s, submission) == Success(out)
    ensures AnswerShape(s, submission, out)
  {
    hide Valid, Trim, C.CanonicalAnswer, C.AnswerFor, C.Upsert, C.Complete, C.BoundedText;
  }

  lemma ShapeGivesFacts(s: RuntimeState, submission: Submission, out: Transition)
    requires AnswerShape(s, submission, out)
    ensures StepFacts(s, Clarify(submission), out)
  {
    hide Trim, Delivery.Verify, MissingSkillDirs;
  }

  lemma ClarifyStepFacts(s: RuntimeState, submission: Submission, out: Transition)
    requires ApplyClarificationResponse(s, submission) == Success(out)
    ensures StepFacts(s, Clarify(submission), out)
  {
    hide ApplyClarificationResponse, StepFacts, AnswerShape;
    AnswersHaveShape(s, submission, out);
    ShapeGivesFacts(s, submission, out);
  }

  lemma SteerStepFacts(s: RuntimeState, request: SteerRequest, out: Transition)
    requires AppendSteer(s, request) == Success(out)
    ensures StepFacts(s, SteerRun(request), out)
  {
    hide Valid, Trim, Utf8Len, Delivery.Verify, MissingSkillDirs, ValidFeedback;
  }

  lemma ConsumeStepFacts(s: RuntimeState, out: Transition)
    requires ConsumePendingSteers(s) == Success(out)
    ensures StepFacts(s, ConsumeSteers, out)
  {
    hide Valid, Trim, Utf8Len, Delivery.Verify, MissingSkillDirs, ValidFeedback;
  }

  lemma InterruptStepFacts(s: RuntimeState, version: int, out: Transition)
    requires Interrupt(s, version) == Success(out)
    ensures StepFacts(s, InterruptRun(version), out)
  {
    hide Valid, Trim, Utf8Len, Delivery.Verify, MissingSkillDirs, ValidFeedback;
  }

  lemma TerminateStepFacts(s: RuntimeState, code: string, out: Transition)
    requires Terminate(s, code) == Success(out)
    ensures StepFacts(s, TerminateRun(code), out)
  {
    hide Valid, Trim, Utf8Len, Delivery.Verify, MissingSkillDirs, ValidFailureCode;
  }

  lemma FailStepFacts(s: RuntimeState, code: string, out: Transition)
    requires Fail(s, code) == Success(out)
    ensures StepFacts(s, FailRun(code), out)
  {
    hide Valid, Trim, Utf8Len, Delivery.Verify, MissingSkillDirs, ValidFailureCode;
  }

  lemma UnchangedStepFacts(s: RuntimeState, now: int, out: Transition)
    requires out == Transition(s, [])
    ensures StepFacts(s, Expire(now), out)
  {
    hide Trim, Delivery.Verify, MissingSkillDirs, Risky;
  }

  lemma ExpiredIsTerminated(s: RuntimeState, code: string, now: int, out: Transition)
    requires StepFacts(s, TerminateRun(code), out)
    ensures StepFacts(s, Expire(now), out)
  {
    hide Trim, Delivery.Verify, MissingSkillDirs, Risky, Grows, Live, Measure, ToolEvents, UsedCalls;
  }

  lemma ExpireStepFacts(s: RuntimeState, now: int, out: Transition)
    requires ExpireRuntimeAt(s, now) == Success(out)
    ensures StepFacts(s, Expire(now), out)
  {
    hide Valid, Trim, Terminate, Delivery.Verify, MissingSkillDirs, StepFacts;
    if s.limits.None? || s.status.Terminal() || now < s.limits.value.deadlineAt {
      UnchangedStepFacts(s, now, out);
    } else {
      TerminateStepFacts(s, RUNTIME_DEADLINE_EXCEEDED, out);
      ExpiredIsTerminated(s, RUNTIME_DEADLINE_EXCEEDED, now, out);
    }
  }

  lemma BeginModelStepFacts(s: RuntimeState, out: Transition)
    requires BeginModelRequest(s) == Success(out)
    ensures StepFacts(s, BeginModel, out)
  {
    hide Valid, Trim, Utf8Len, Delivery.Verify, MissingSkillDirs, ValidFailureCode;
  }

  lemma ContractChangedMoves(s: RuntimeState, op: Op)
    requires (op.Advance? || op.AdvanceExternal?) && Advanceable(s)
    ensures Moves(s, op, ContractChanged(s))
  {
    hide Valid, ContractChangedFeedback, Delivery.Verify, MissingSkillDirs;
  }

  lemma ContractChangedToolFacts(s: RuntimeState, op: Op)
    requires (op.Advance? || op.AdvanceExternal?) && Advanceable(s)
    ensures ToolFacts(s, op, ContractChanged(s)) && ApprovalFacts(s, op, ContractChanged(s))
  {
    hide Valid, ContractChangedFeedback, Delivery.Verify, MissingSkillDirs;
  }

  lemma ContractChangedStepFacts(s: RuntimeState, op: Op)
    requires (op.Advance? || op.AdvanceExternal?) && Advanceable(s)
    ensures StepFacts(s, op, ContractChanged(s))
  {
    hide Valid, ContractChangedFeedback, Delivery.Verify, MissingSkillDirs, Moves, ToolFacts, ApprovalFacts;
    ContractChangedMoves(s, op);
    ContractChangedToolFacts(s, op);
  }

  lemma AskingMoves(s: RuntimeState, op: Op, request: C.Request)
    requires (op.Advance? || op.AdvanceExternal?) && Advanceable(s)
    requires s.expectedDelivery == None || s.expectedDelivery == Some(request.expectedDelivery)
    ensures Moves(s, op, AdvanceClarification(Cleared(s, request.expectedDelivery), request))
  {
    hide Valid, IdentityReusedFeedback, Delivery.Verify, MissingSkillDirs, CompletedByRequestId;
  }

  lemma AskingToolFacts(s: RuntimeState, op: Op, request: C.Request)
    requires (op.Advance? || op.AdvanceExternal?) && Advanceable(s)
    requires s.expectedDelivery == None || s.expectedDelivery == Some(request.expectedDelivery)
    ensures ToolFacts(s, op, AdvanceClarification(Cleared(s, request.expectedDelivery), request))
    ensures ApprovalFacts(s, op, AdvanceClarification(Cleared(s, request.expectedDelivery), request))
  {
    hide Valid, IdentityReusedFeedback, Delivery.Verify, MissingSkillDirs, CompletedByRequestId;
  }

  lemma AskingStepFacts(s: RuntimeState, op: Op, request: C.Request)
    requires (op.Advance? || op.AdvanceExternal?) && Advanceable(s)
    requires s.expectedDelivery == None || s.expectedDelivery == Some(request.expectedDelivery)
    ensures StepFacts(s, op, AdvanceClarification(Cleared(s, request.expectedDelivery), request))
  {
    hide Valid, IdentityReusedFeedback, Delivery.Verify, MissingSkillDirs, CompletedByRequestId, Moves, ToolFacts, ApprovalFacts;
    AskingMoves(s, op, request);
    AskingToolFacts(s, op, request);
  }

  lemma CallingMoves(s: RuntimeState, op: Op, call: ToolCall)
    requires (op.Advance? || op.AdvanceExternal?) && Advanceable(s) && CurrentTool(call.toolName)
    requires DecisionOf(op).value.toolCall == Some(call)
    requires s.expectedDelivery == None || s.expectedDelivery == Some(call.expectedDelivery)
    ensures Moves(s, op, AdvanceToolCall(Cleared(s, call.expectedDelivery), call))
  {
    hide Valid, Trim, Delivery.Verify, MissingSkillDirs;
  }

  lemma CallingToolFacts(s: RuntimeState, op: Op, call: ToolCall)
    requires (op.Advance? || op.AdvanceExternal?) && Advanceable(s) && CurrentTool(call.toolName)
    requires DecisionOf(op).value.toolCall == Some(call)
    requires s.expectedDelivery == None || s.expectedDelivery == Some(call.expectedDelivery)
    ensures ToolFacts(s, op, AdvanceToolCall(Cleared(s, call.expectedDelivery), call))
    ensures ApprovalFacts(s, op, AdvanceToolCall(Cleared(s, call.expectedDelivery), call))
  {
    hide Valid, Trim, Delivery.Verify, MissingSkillDirs;
  }

  lemma CallingStepFacts(s: RuntimeState, op: Op, call: ToolCall)
    requires (op.Advance? || op.AdvanceExternal?) && Advanceable(s) && CurrentTool(call.toolName)
    requires DecisionOf(op).value.toolCall == Some(call)
    requires s.expectedDelivery == None || s.expectedDelivery == Some(call.expectedDelivery)
    ensures StepFacts(s, op, AdvanceToolCall(Cleared(s, call.expectedDelivery), call))
  {
    hide Valid, Trim, Delivery.Verify, MissingSkillDirs, Moves, ToolFacts, ApprovalFacts;
    CallingMoves(s, op, call);
    CallingToolFacts(s, op, call);
  }

  lemma FinalToolFacts(s: RuntimeState, op: Op, final: FinalDecision, evidence: Delivery.Evidence)
    requires Advanceable(s)
    ensures var out := AdvanceFinal(Cleared(s, final.expectedDelivery), final, evidence);
            ToolFacts(s, op, out) && ApprovalFacts(s, op, out)
  {
    hide Valid, Trim, Delivery.Verify, MissingSkillDirs, MissingSkillsFeedback, Risky, Delivery.ValidDelivery;
  }

  lemma FinalMoves(s: RuntimeState, op: Op, final: FinalDecision)
    requires (op.Advance? || op.AdvanceExternal?) && Advanceable(s) && ValidFinal(final)
    requires DecisionOf(op).value.final == Some(final)
    requires s.expectedDelivery == None || s.expectedDelivery == Some(final.expectedDelivery)
    ensures Moves(s, op, AdvanceFinal(Cleared(s, final.expectedDelivery), final, EvidenceOf(op).value))
  {
    hide Valid, Trim, Delivery.Verify, MissingSkillDirs, MissingSkillsFeedback, Delivery.ValidDelivery, ToolFacts, ApprovalFacts;
  }

  lemma FinalStepFacts(s: RuntimeState, op: Op, final: FinalDecision)
    requires (op.Advance? || op.AdvanceExternal?) && Advanceable(s) && ValidFinal(final)
    requires DecisionOf(op).value.final == Some(final)
    requires s.expectedDelivery == None || s.expectedDelivery == Some(final.expectedDelivery)
    ensures StepFacts(s, op, AdvanceFinal(Cleared(s, final.expectedDelivery), final, EvidenceOf(op).value))
  {
    hide Valid, Trim, Delivery.Verify, MissingSkillDirs, MissingSkillsFeedback, Delivery.ValidDelivery, ToolFacts,
      ApprovalFacts, Moves;
    FinalMoves(s, op, final);
    FinalToolFacts(s, op, final, EvidenceOf(op).value);
  }

  lemma AdvanceStepFacts(s: RuntimeState, op: Op, input: RuntimeInput, toolSchema: int)
    requires op == Advance(input, toolSchema) || (exists v :: op == AdvanceExternal(v, input))
    requires AdvanceForToolSchema(s, input, toolSchema).Success?
    ensures StepFacts(s, op, AdvanceForToolSchema(s, input, toolSchema).value)
  {
    hide StepFacts, Valid, ContractChanged, AdvanceClarification, AdvanceToolCall, AdvanceFinal, Cleared, C.ValidRequest,
      ValidFinal;
    var d := input.decision;
    if ConflictsWithContract(s, d) {
      ContractChangedStepFacts(s, op);
    } else {
      match d.kind {
        case ClarificationKind => AskingStepFacts(s, op, C.TrimRequest(d.clarification.value));
        case ToolCallKind => CallingStepFacts(s, op, d.toolCall.value);
        case FinalKind => FinalStepFacts(s, op, d.final.value);
        case UnknownDecisionKind =>
      }
    }
  }

  /** Only a tool call in line with the contract leads to a wait for approval. */
  lemma ApprovalWaitIsCall(s: RuntimeState, input: RuntimeInput, toolSchema: int)
    requires AdvanceForToolSchema(s, input, toolSchema).Success?
    requires AdvanceForToolSchema(s, input, toolSchema).value.state.status.WaitingApproval?
    ensures Advanceable(s) && input.decision.toolCall.Some?
    ensures var call := input.decision.toolCall.value;
            && CurrentTool(call.toolName)
            && (s.expectedDelivery == None || s.expectedDelivery == Some(call.expectedDelivery))
            && AdvanceForToolSchema(s, input, toolSchema).value == AdvanceToolCall(Cleared(s, call.expectedDelivery), call)
  {
    hide Valid, Trim, Delivery.Verify, Delivery.ValidDelivery, C.ValidRequest, ValidFinal;
  }

  /** The outcome of a replay: the call's state with the result in place of the call. */
  predicate ReplayShape(s: RuntimeState, out: Transition, p: RuntimeState) {
    && p.pendingToolCall.Some? && p.status.WaitingApproval?
    && out.toolReplay.Some? && out.consumed == []
    && out.toolReplay.value.call.toolCallId == p.pendingToolCall.value.toolCallId
    && out.toolReplay.value.call.actionVersion == p.pendingToolCall.value.actionVersion
    && out.state.lastToolResult.Some?
    && out.state.lastToolResult.value.toolCallId == p.pendingToolCall.value.toolCallId
    && out.state.lastToolResult.value.actionVersion == p.pendingToolCall.value.actionVersion
    && out.state == p.(status := out.state.status, pendingToolCall := None, pendingToolStarted := false,
                   lastToolResult := out.state.lastToolResult, failureCode := out.state.failureCode)
    && ((out.state.status.Running? && out.events == [ToolCalled, ToolResulted, RunStatusChanged]) ||
        (out.state.status.Failed? && out.events == [ToolCalled, ToolResulted, RunFailed]))
  }

  lemma ReplaysHaveShape(s: RuntimeState, pending: Transition, replay: ToolReplay)
    requires ReplayResolvedTool(s, pending, replay).Success?
    ensures ReplayShape(s, ReplayResolvedTool(s, pending, replay).value, pending.state)
  {
    hide Valid, Trim, ConsistentResolution, ValidOutput;
  }

  /** A replay stands in for its call and the result at once. */
  lemma ReplayShapeGivesFacts(s: RuntimeState, op: Op, call: ToolCall, out: Transition)
    requires op.Replay? && Advanceable(s) && CurrentTool(call.toolName)
    requires s.expectedDelivery == None || s.expectedDelivery == Some(call.expectedDelivery)
    requires ReplayShape(s, out, AdvanceToolCall(Cleared(s, call.expectedDelivery), call).state)
    ensures StepFacts(s, op, out)
  {
    hide Valid, Trim, Delivery.Verify, MissingSkillDirs;
  }

  lemma ReplayStepFacts(s: RuntimeState, input: RuntimeInput, toolSchema: int, replay: ToolReplay)
    requires AdvanceThenReplay(s, input, toolSchema, replay).Success?
    ensures StepFacts(s, Replay(input, toolSchema, replay), AdvanceThenReplay(s, input, toolSchema, replay).value)
  {
    hide StepFacts, AdvanceForToolSchema, ReplayResolvedTool, AdvanceToolCall, Cleared, Valid;
    var pending := AdvanceForToolSchema(s, input, toolSchema).value;
    ReplaysHaveShape(s, pending, replay);
    ApprovalWaitIsCall(s, input, toolSchema);
    ReplayShapeGivesFacts(s, Replay(input, toolSchema, replay), input.decision.toolCall.value, ReplayResolvedTool(s, pending, replay).value);
  }

  /** Every accepted step has all the facts. */
  lemma AcceptedStep(s: RuntimeState, op: Op)
    requires Apply(s, op).Success?
    ensures StepFacts(s, op, Apply(s, op).value)
  {
    hide StepFacts, AdvanceForToolSchema, AdvanceThenReplay, AdvanceExternalDecision, RejectModelDecision, RejectReusedToolIdentity,
      RejectToolDecision, ResolveTool, BeginToolExecution, ReviewToolApproval, InvalidateToolApproval, ApplyClarificationResponse, AppendSteer,
      ConsumePendingSteers, Interrupt, Terminate, Fail, ExpireRuntimeAt, BeginModelRequest;
    var out := Apply(s, op).value;
    match op {
      case Advance(input, toolSchema) => AdvanceStepFacts(s, op, input, toolSchema);
      case AdvanceExternal(version, input) =>
        ExternalIsAdvance(s, version, input);
        AdvanceStepFacts(s, op, input, CURRENT_TOOL_SCHEMA);
      case RejectModel(feedback) => RejectModelStepFacts(s, feedback, out);
      case RejectReused(call) => RejectReusedStepFacts(s, call, out);
      case RejectTool(failure) => RejectToolStepFacts(s, failure, out);
      case Resolve(resolution) => ResolveStepFacts(s, resolution, out);
      case BeginTool(execution) => BeginToolStepFacts(s, execution, out);
      case Review(review) => ReviewStepFacts(s, review, out);
      case Invalidate(invalidation) => InvalidateStepFacts(s, invalidation, out);
      case Clarify(submission) => ClarifyStepFacts(s, submission, out);
      case SteerRun(request) => SteerStepFacts(s, request, out);
      case ConsumeSteers => ConsumeStepFacts(s, out);
      case InterruptRun(version) => InterruptStepFacts(s, version, out);
      case TerminateRun(code) => TerminateStepFacts(s, code, out);
      case FailRun(code) => FailStepFacts(s, code, out);
      case Expire(now) => ExpireStepFacts(s, now, out);
      case BeginModel => BeginModelStepFacts(s, out);
      case Replay(input, toolSchema, replay) => ReplayStepFacts(s, input, toolSchema, replay);
    }
  }
}
