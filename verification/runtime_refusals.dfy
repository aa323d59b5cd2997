/** What a request that is not accepted is refused for. */
module RuntimeRefusals {
  import opened Text
  import opened Ordering
  import opened Runtime
  import opened RuntimeSteps
  import opened RuntimeRuns
  import opened RuntimeOutcomes
  import C = Clarification

  predicate Waits(s: RuntimeState, status: RunStatus) {
    s.status == status && s.pendingToolCall.Some?
  }

  /** The first thing wrong with a request, except for answers. */
  function Refusal(s: RuntimeState, op: Op): RuntimeError
    requires !op.Clarify?
  {
    match op
    case Advance(_, _) => if CanAdvance(s) then DecisionInvalid else NotAdvanceable
    case RejectReused(_) => if CanAdvance(s) then DecisionInvalid else NotAdvanceable
    case RejectModel(_) => if CanAdvance(s) then FeedbackInvalid else NotAdvanceable
    case FailRun(_) => if CanAdvance(s) then FailureCodeInvalid else NotAdvanceable
    case Replay(input, toolSchema, _) =>
      if !CanAdvance(s) then NotAdvanceable
      else if toolSchema != 8 || !DecisionInForm(input.decision) then DecisionInvalid
      else ReplayInvalid
    case RejectTool(f) =>
      if !CanAdvance(s) then NotAdvanceable
      else if !CallInForm(f.call) then DecisionInvalid
      else if !FailureCodeShape(Trim(f.errorCode)) || !JsonObject(f.output) || f.failureClass in {NoFailure, UnknownFailureClass} then ResultInvalid
      else DecisionInvalid
    case _ =>
      if !Valid(s) then StateInvalid
      else
        match op
        case AdvanceExternal(version, _) =>
          if s.stateVersion != version || !s.status.Running? then ExternalConflict
          else if s.stepNumber < s.maxSteps then DecisionInvalid
          else NotAdvanceable
        case Resolve(r) =>
          if !Waits(s, WaitingTool) then StatusConflict else if !Names(s, r.toolCallId, r.actionVersion) then IdentityInvalid else ResultInvalid
        case BeginTool(_) => if !Waits(s, WaitingTool) || s.pendingToolStarted then StatusConflict else IdentityInvalid
        case Review(a) =>
          if !Waits(s, WaitingApproval) then StatusConflict else if !Names(s, a.toolCallId, a.actionVersion) then IdentityInvalid else ApprovalInvalid
        case Invalidate(i) =>
          if !Waits(s, WaitingApproval) then StatusConflict else if !Names(s, i.toolCallId, i.actionVersion) then IdentityInvalid else ApprovalInvalid
        case TerminateRun(_) => if s.status in {Succeeded, Failed, Cancelled} then StatusConflict else FailureCodeInvalid
        case Expire(_) => TimeInvalid
        case InterruptRun(_) => InterruptConflict
        case BeginModel => StatusConflict
        case _ => SteerConflict
  }

  lemma AdvanceRefused(s: RuntimeState, input: RuntimeInput, toolSchema: int)
    requires AdvanceForToolSchema(s, input, toolSchema).Failure?
    ensures AdvanceForToolSchema(s, input, toolSchema).error == if CanAdvance(s) then DecisionInvalid else NotAdvanceable
    ensures AdvanceForToolSchema(s, input, toolSchema).error == Refusal(s, Advance(input, toolSchema))
  {
    hide Valid, Trim, AdvanceFinal, AdvanceToolCall, AdvanceClarification, ContractChanged, Cleared, ValidDecision;
  }

  lemma ExternalRefused(s: RuntimeState, version: int, input: RuntimeInput)
    requires AdvanceExternalDecision(s, version, input).Failure?
    ensures AdvanceExternalDecision(s, version, input).error == Refusal(s, AdvanceExternal(version, input))
  {
    hide Valid, AdvanceForToolSchema;
    if Valid(s) {
      VersionIsPositive(s);
    }
    if AdvanceForToolSchema(s, input, CURRENT_TOOL_SCHEMA).Failure? {
      AdvanceRefused(s, input, CURRENT_TOOL_SCHEMA);
    }
  }

  lemma RejectToolRefused(s: RuntimeState, f: ToolFailure)
    requires RejectToolDecision(s, f).Failure?
    ensures RejectToolDecision(s, f).error == Refusal(s, RejectTool(f))
  {
    hide Valid, Trim;
  }

  lemma RejectOrFailRefused(s: RuntimeState, op: Op)
    requires op.RejectModel? || op.RejectReused? || op.FailRun?
    requires Apply(s, op).Failure?
    ensures Apply(s, op).error == Refusal(s, op)
  {
    hide Valid, Trim, ValidCall, ValidFeedback, ValidFailureCode;
  }

  lemma PreparedRefused(s: RuntimeState, pending: Transition, replay: ToolReplay)
    requires ReplayResolvedTool(s, pending, replay).Failure? && CanAdvance(s)
    ensures ReplayResolvedTool(s, pending, replay).error == ReplayInvalid
  {
    hide Valid, Trim, ValidOutput, ConsistentResolution;
  }

  lemma ReplayRefused(s: RuntimeState, input: RuntimeInput, toolSchema: int, replay: ToolReplay)
    requires AdvanceThenReplay(s, input, toolSchema, replay).Failure?
    ensures AdvanceThenReplay(s, input, toolSchema, replay).error == Refusal(s, Replay(input, toolSchema, replay))
  {
    hide AdvanceForToolSchema, ReplayResolvedTool, CanAdvance, DecisionInForm;
    AdvanceAcceptsExactly(s, input, toolSchema);
    if AdvanceForToolSchema(s, input, toolSchema).Failure? {
      AdvanceRefused(s, input, toolSchema);
    } else {
      PreparedRefused(s, AdvanceForToolSchema(s, input, toolSchema).value, replay);
    }
  }

  lemma ToolRefused(s: RuntimeState, op: Op)
    requires op.Resolve? || op.BeginTool? || op.Review? || op.Invalidate?
    requires Apply(s, op).Failure?
    ensures Apply(s, op).error == Refusal(s, op)
  {
    hide Valid, Trim, ResolvedSkillDir, AddLoadedSkillDir, ConsistentResolution, ValidOutput;
  }

  lemma EndingRefused(s: RuntimeState, op: Op)
    requires op.TerminateRun? || op.Expire?
    requires Apply(s, op).Failure?
    ensures Apply(s, op).error == Refusal(s, op)
  {
    hide Valid, Trim, ValidFailureCode;
    DeadlineCode();
  }

  lemma InvalidTakesNoSteer(s: RuntimeState, r: SteerRequest)
    ensures !Valid(s) ==> AppendSteer(s, r) == Failure(StateInvalid)
  {
    hide Valid, Trim;
  }

  lemma SteeringRefused(s: RuntimeState, op: Op)
    requires op.SteerRun? || op.ConsumeSteers? || op.InterruptRun? || op.BeginModel?
    requires Apply(s, op).Failure?
    ensures Apply(s, op).error == Refusal(s, op)
  {
    hide Valid, Trim, AppendSteer;
    match op {
      case SteerRun(r) =>
        SteerExactly(s, r);
        InvalidTakesNoSteer(s, r);
      case ConsumeSteers => ConsumeExactly(s);
      case InterruptRun(version) => InterruptExactly(s, version);
      case _ => BeginModelExactly(s);
    }
  }

  /** A request other than an answer is refused for the first thing wrong with it, and checking the state
      it would leave never refuses it. */
  lemma RefusedExactly(s: RuntimeState, op: Op)
    requires !op.Clarify? && Apply(s, op).Failure?
    ensures Apply(s, op).error == Refusal(s, op)
  {
    hide Refusal, AdvanceForToolSchema, AdvanceThenReplay, RejectModelDecision, RejectReusedToolIdentity, RejectToolDecision,
      ResolveTool, BeginToolExecution, ReviewToolApproval, InvalidateToolApproval, ApplyClarificationResponse, AppendSteer,
      ConsumePendingSteers, Interrupt, Terminate, Fail, ExpireRuntimeAt, BeginModelRequest, AdvanceExternalDecision;
    match op {
      case Replay(input, toolSchema, replay) => ReplayRefused(s, input, toolSchema, replay);
      case Resolve(_) => ToolRefused(s, op);
      case BeginTool(_) => ToolRefused(s, op);
      case Review(_) => ToolRefused(s, op);
      case Invalidate(_) => ToolRefused(s, op);
      case TerminateRun(_) => EndingRefused(s, op);
      case Expire(_) => EndingRefused(s, op);
      case SteerRun(_) => SteeringRefused(s, op);
      case ConsumeSteers => SteeringRefused(s, op);
      case InterruptRun(_) => SteeringRefused(s, op);
      case BeginModel => SteeringRefused(s, op);
      case Advance(input, toolSchema) => AdvanceRefused(s, input, toolSchema);
      case AdvanceExternal(version, input) => ExternalRefused(s, version, input);
      case RejectTool(failure) => RejectToolRefused(s, failure);
      case _ => RejectOrFailRefused(s, op);
    }
  }

  /** An answer to a request completed before is accepted exactly as the very answer that completed it,
      and then changes nothing. */
  lemma RepeatExactly(s: RuntimeState, a: Submission, done: C.Completed)
    requires Valid(s) && AnswerInForm(a) && done in s.clarificationHistory && done.request.requestId == Trim(a.requestId)
    ensures var r := ApplyClarificationResponse(s, a);
            var canonical := C.CanonicalAnswer(done.request, Trim(a.questionId), a.answer);
            if canonical.Failure? then r == Failure(AnswerRejected)
            else if && a.complete && Trim(a.questionId) == done.completionQuestionId
                    && a.expectedStateVersion == done.completionExpectedStateVersion
                    && C.AnswerFor(done.answers, Trim(a.questionId)) == Some(canonical.value)
            then r == Success(Transition(s, [], replayed := true))
            else r == Failure(ClarificationConflict)
  {
    hide Valid, Trim, C.CanonicalAnswer, C.AnswerFor, AnswerPending, CompletedByRequestId;
    CompletedOnce(s, done, CompletedByRequestId(s.clarificationHistory, Trim(a.requestId)).value);
  }

  lemma CompletedOnce(s: RuntimeState, c: C.Completed, d: C.Completed)
    requires Valid(s) && c in s.clarificationHistory && d in s.clarificationHistory && c.request.requestId == d.request.requestId
    ensures c == d
  {
    hide ValidPendingSteers, ValidFeedback, ValidUserMessage, ValidConfiguration, ValidLoadedSkillDirs, C.ValidCompleted,
      ValidPendingClarification;
    var i :| 0 <= i < |s.clarificationHistory| && s.clarificationHistory[i] == c;
    var j :| 0 <= j < |s.clarificationHistory| && s.clarificationHistory[j] == d;
  }
}
