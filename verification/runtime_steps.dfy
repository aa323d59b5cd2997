/** One step of a run: any of the transitions, and what every accepted step keeps. */
module RuntimeSteps {
  import opened Text
  import opened Ordering
  import opened Runtime
  import Delivery
  import C = Clarification

  datatype Op =
    | Advance(input: RuntimeInput, toolSchema: int)
    | AdvanceExternal(expectedVersion: int, externalInput: RuntimeInput)
    | RejectModel(feedback: Feedback)
    | RejectReused(reusedCall: ToolCall)
    | RejectTool(failure: ToolFailure)
    | Resolve(resolution: ToolResolution)
    | BeginTool(execution: ToolExecution)
    | Review(review: ToolApproval)
    | Invalidate(invalidation: ToolApprovalInvalidation)
    | Clarify(submission: Submission)
    | SteerRun(request: SteerRequest)
    | ConsumeSteers
    | InterruptRun(interruptVersion: int)
    | TerminateRun(terminateCode: string)
    | FailRun(failCode: string)
    | Expire(now: int)
    | BeginModel
    | Replay(replayInput: RuntimeInput, replaySchema: int, replay: ToolReplay)

  /** A replay always answers the decision it was prepared from, on the same state. */
  function AdvanceThenReplay(s: RuntimeState, input: RuntimeInput, toolSchema: int, replay: ToolReplay): Outcome {
    match AdvanceForToolSchema(s, input, toolSchema)
    case Failure(e) => Failure(e)
    case Success(pending) => ReplayResolvedTool(s, pending, replay)
  }

  function Apply(s: RuntimeState, op: Op): Outcome {
    match op
    case Advance(input, toolSchema) => AdvanceForToolSchema(s, input, toolSchema)
    case AdvanceExternal(version, input) => AdvanceExternalDecision(s, version, input)
    case RejectModel(feedback) => RejectModelDecision(s, feedback)
    case RejectReused(call) => RejectReusedToolIdentity(s, call)
    case RejectTool(failure) => RejectToolDecision(s, failure)
    case Resolve(resolution) => ResolveTool(s, resolution)
    case BeginTool(execution) => BeginToolExecution(s, execution)
    case Review(review) => ReviewToolApproval(s, review)
    case Invalidate(invalidation) => InvalidateToolApproval(s, invalidation)
    case Clarify(submission) => ApplyClarificationResponse(s, submission)
    case SteerRun(request) => AppendSteer(s, request)
    case ConsumeSteers => ConsumePendingSteers(s)
    case InterruptRun(version) => Interrupt(s, version)
    case TerminateRun(code) => Terminate(s, code)
    case FailRun(code) => Fail(s, code)
    case Expire(now) => ExpireRuntimeAt(s, now)
    case BeginModel => BeginModelRequest(s)
    case Replay(input, toolSchema, replay) => AdvanceThenReplay(s, input, toolSchema, replay)
  }

  // ---------------------------------------------------------------- the feedback that does not fit

  function TotalLength(parts: seq<string>): nat {
    if parts == [] then 0 else TotalLength(parts[..|parts| - 1]) + Utf8Len(parts[|parts| - 1])
  }

  const PREFIX_LENGTH := 56

  /** Bytes of the feedback naming these directories. */
  function FeedbackLength(missing: seq<string>): int {
    PREFIX_LENGTH + TotalLength(missing) + (if missing == [] then 0 else 2 * (|missing| - 1))
  }

  /** A final decision in line with the contract, while the unloaded selected skills have names
      too long for one feedback. */
  predicate Overflows(s: RuntimeState, op: Op) {
    && (op.Advance? || op.AdvanceExternal?)
    && var d := (if op.Advance? then op.input else op.externalInput).decision;
       var missing := MissingSkillDirs(s.configuration.skills, s.loadedSkillDirs);
       && d.kind.FinalKind? && d.final.Some? && !ConflictsWithContract(s, d)
       && missing != [] && FeedbackLength(missing) > FEEDBACK_LIMIT
  }

  lemma {:induction false} JoinLength(parts: seq<string>)
    requires parts != []
    ensures Utf8Len(Join(parts)) == TotalLength(parts) + 2 * (|parts| - 1)
  {
    var last := parts[|parts| - 1];
    if |parts| == 1 {
      assert parts[..0] == [] && TotalLength(parts[..0]) == 0;
    } else {
      var front := parts[..|parts| - 1];
      JoinLength(front);
      Utf8LenConcat(Join(front) + ", ", last);
      Utf8LenConcat(Join(front), ", ");
      AsciiLen(", ");
    }
  }

  lemma AsciiConcatLength(a: string, b: string, c: string, d: string)
    requires Ascii(a) && Ascii(b) && Ascii(c) && Ascii(d)
    ensures Utf8Len(a + b + c + d) == |a| + |b| + |c| + |d|
  {
    var s := a + b + c + d;
    AsciiLen(s);
  }

  /** A fixed ASCII reason of moderate length is always accepted as feedback. */
  lemma FixedReason(code: FeedbackCode, a: string, b: string, c: string, d: string)
    requires Ascii(a) && Ascii(b) && Ascii(c) && Ascii(d) && |a| + |b| + |c| + |d| <= FEEDBACK_LIMIT
    requires a != "" && d != "" && !IsSpace(a[0]) && !IsSpace(d[|d| - 1]) && !code.UnknownFeedback?
    ensures ValidFeedback(Feedback(code, a + b + c + d))
  {
    AsciiConcatLength(a, b, c, d);
    var s := a + b + c + d;
    assert s[0] == a[0] && s[|s| - 1] == d[|d| - 1];
    assert Trimmed(s);
  }

  lemma ContractChangedFeedbackIsValid()
    ensures ValidFeedback(ContractChangedFeedback())
  {
    FixedReason(DeliveryContractChanged, "expectedDelivery must ", "exactly match the ", "contract frozen by the ", "first model decision");
    hide ValidFeedback;
  }

  lemma IdentityReusedFeedbackIsValid()
    ensures ValidFeedback(IdentityReusedFeedback())
  {
    FixedReason(ClarificationIdentityReused, "clarification requestId ", "was already completed ", "and must not ", "be reused");
    hide ValidFeedback;
  }

  lemma PrefixLength()
    ensures Utf8Len(MISSING_SKILLS_PREFIX) == PREFIX_LENGTH
    ensures MISSING_SKILLS_PREFIX != "" && !IsSpace(MISSING_SKILLS_PREFIX[0])
  {
    AsciiConcatLength("load the missing ", "selected skills ", "before final ", "delivery: ");
  }

  /** The feedback fits exactly when its length does: trimming takes nothing off it. */
  lemma MissingSkillsFeedbackFits(missing: seq<string>)
    requires missing != []
    requires forall d :: d in missing ==> Trimmed(d) && d != ""
    ensures ValidFeedback(MissingSkillsFeedback(missing)) <==> FeedbackLength(missing) <= FEEDBACK_LIMIT
  {
    PrefixLength();
    PrefixedReason(MISSING_SKILLS_PREFIX, missing);
  }

  lemma PrefixedReason(prefix: string, missing: seq<string>)
    requires prefix != "" && !IsSpace(prefix[0]) && Utf8Len(prefix) == PREFIX_LENGTH && missing != []
    requires forall d :: d in missing ==> Trimmed(d) && d != ""
    ensures Trim(prefix + Join(missing)) == prefix + Join(missing) != ""
    ensures Utf8Len(prefix + Join(missing)) == FeedbackLength(missing)
  {
    JoinLength(missing);
    Utf8LenConcat(prefix, Join(missing));
    JoinEnds(missing);
    TrimmedConcat(prefix, Join(missing));
  }

  lemma TrimmedConcat(a: string, b: string)
    requires a != "" && b != "" && !IsSpace(a[0]) && !IsSpace(b[|b| - 1])
    ensures Trimmed(a + b) && a + b != ""
  {
    assert (a + b)[0] == a[0] && (a + b)[|a + b| - 1] == b[|b| - 1];
  }

  lemma JoinEnds(missing: seq<string>)
    requires missing != []
    requires forall d :: d in missing ==> Trimmed(d) && d != ""
    ensures Join(missing) != "" && !IsSpace(Join(missing)[|Join(missing)| - 1])
  {
    var last := missing[|missing| - 1];
    assert last in missing;
    assert Join(missing)[|Join(missing)| - 1] == last[|last| - 1];
  }

  // ---------------------------------------------------------------- validity is kept, or the feedback overflows

  /** Fields of a valid state that no decision touches keep its history and steers valid. */
  lemma MissingDirsAreSelected(s: RuntimeState)
    requires Valid(s)
    ensures forall d :: d in MissingSkillDirs(s.configuration.skills, s.loadedSkillDirs) ==> Trimmed(d) && d != ""
  {
    MissingFromSelection(s.configuration.skills, s.loadedSkillDirs);
  }

  lemma {:induction false} MissingFromSelection(skills: seq<Skill>, loaded: seq<string>)
    ensures forall d :: d in MissingSkillDirs(skills, loaded) ==> Selected(skills, d) && d !in loaded
  {
    if skills != [] {
      MissingFromSelection(skills[..|skills| - 1], loaded);
      assert skills == skills[..|skills| - 1] + [skills[|skills| - 1]];
    }
  }

  /** Adding a selected directory keeps the list of loaded ones strictly ascending. */
  lemma AddLoadedKeepsValid(skills: seq<Skill>, loaded: seq<string>, dir: string)
    requires ValidLoadedSkillDirs(skills, loaded) && Selected(skills, dir) && Trimmed(dir) && dir != ""
    ensures ValidLoadedSkillDirs(skills, AddLoadedSkillDir(loaded, dir))
    ensures forall d :: d in AddLoadedSkillDir(loaded, dir) <==> d in loaded || d == dir
  {
    if dir !in loaded {
      LessIsStrictTotal();
      var longer := loaded + [dir];
      forall i, j | 0 <= i < j < |longer| ensures longer[i] != longer[j] {
        if j < |loaded| {
          assert Less(loaded[i], loaded[j]);
        } else {
          assert longer[i] in loaded;
        }
      }
      SortDistinct(Less, longer);
    }
  }

  /** What a step that asks no question leaves alone or keeps in bounds. */
  predicate Quiet(s: RuntimeState, t: RuntimeState) {
    && ValidBoundary(t) && ValidToolState(t) && (t.limits.Some? ==> ValidLimits(t.limits.value))
    && t.userMessage == s.userMessage && t.configuration == s.configuration
    && t.clarificationHistory == s.clarificationHistory && t.pendingClarification.None? && !t.status.WaitingInput?
    && (t.pendingSteers == s.pendingSteers || t.pendingSteers == [])
    && (t.expectedDelivery == s.expectedDelivery
        || (s.expectedDelivery.None? && t.expectedDelivery.Some? && Delivery.ValidDelivery(t.expectedDelivery.value)))
    && (t.loadedSkillDirs == s.loadedSkillDirs || ValidLoadedSkillDirs(t.configuration.skills, t.loadedSkillDirs))
  }

  /** After a step that asks no question only the feedback decides whether the state is valid. */
  lemma QuietStepIsValid(s: RuntimeState, t: RuntimeState)
    requires Valid(s) && Quiet(s, t)
    ensures Valid(t) <==> (t.decisionFeedback.Some? ==> ValidFeedback(t.decisionFeedback.value))
  {
    hide C.ValidRecord, C.ValidCompleted, Delivery.ValidDelivery, ValidFeedback, ValidBoundary, ValidToolState, ValidLimits;
    hide ValidUserMessage, ValidConfiguration, ValidLoadedSkillDirs;
    assert s.expectedDelivery.None? ==> s.clarificationHistory == [] by {
      if s.clarificationHistory != [] {
        assert s.clarificationHistory[0] in s.clarificationHistory;
      }
    }
  }

  lemma EmptyRecordIsValid(request: C.Request)
    requires C.ValidRequest(request)
    ensures C.ValidRecord(request, [], false) && Delivery.ValidDelivery(request.expectedDelivery)
  {
  }

  lemma ClarificationIsValid(s: RuntimeState, request: C.Request)
    requires Advanceable(s) && C.ValidRequest(request)
    requires s.expectedDelivery == None || s.expectedDelivery == Some(request.expectedDelivery)
    ensures Valid(AdvanceClarification(Cleared(s, request.expectedDelivery), request).state)
  {
    hide C.ValidRequest, C.ValidRecord, C.ValidCompleted, Delivery.ValidDelivery, ValidFeedback, IdentityReusedFeedback;
    hide ValidPendingSteers, ValidUserMessage, ValidConfiguration, ValidLoadedSkillDirs;
    IdentityReusedFeedbackIsValid();
    EmptyRecordIsValid(request);
    var next := Cleared(s, request.expectedDelivery);
    QuietStepIsValid(s, next);
  }

  lemma ContractChangedIsValid(s: RuntimeState)
    requires Advanceable(s)
    ensures Valid(ContractChanged(s).state)
  {
    hide ValidFeedback, ContractChangedFeedback, Delivery.ValidDelivery, ValidPendingSteers, ValidUserMessage,
      ValidConfiguration, ValidLoadedSkillDirs, ValidHistory, ValidPendingClarification;
    ContractChangedFeedbackIsValid();
    QuietStepIsValid(s, ContractChanged(s).state);
  }

  lemma ToolCallIsQuiet(s: RuntimeState, call: ToolCall)
    requires Advanceable(s) && ValidCall(call)
    requires s.expectedDelivery == None || s.expectedDelivery == Some(call.expectedDelivery)
    ensures Quiet(s, AdvanceToolCall(Cleared(s, call.expectedDelivery), call).state)
  {
    hide ValidFeedback, Delivery.ValidDelivery, ValidPendingSteers, ValidUserMessage, ValidConfiguration,
      ValidLoadedSkillDirs, ValidHistory, ValidPendingClarification;
  }

  lemma ToolCallIsValid(s: RuntimeState, call: ToolCall)
    requires Advanceable(s) && ValidCall(call)
    requires s.expectedDelivery == None || s.expectedDelivery == Some(call.expectedDelivery)
    ensures Valid(AdvanceToolCall(Cleared(s, call.expectedDelivery), call).state)
  {
    hide Quiet, Valid, ValidFeedback, Delivery.ValidDelivery, Trim;
    ToolCallIsQuiet(s, call);
    QuietStepIsValid(s, AdvanceToolCall(Cleared(s, call.expectedDelivery), call).state);
  }

  lemma FinalIsQuiet(s: RuntimeState, final: FinalDecision, evidence: Delivery.Evidence)
    requires Advanceable(s) && ValidFinal(final)
    requires s.expectedDelivery == None || s.expectedDelivery == Some(final.expectedDelivery)
    ensures Quiet(s, AdvanceFinal(Cleared(s, final.expectedDelivery), final, evidence).state)
  {
    hide ValidFeedback, Delivery.ValidDelivery, ValidPendingSteers, ValidUserMessage, ValidConfiguration,
      ValidLoadedSkillDirs, ValidHistory, ValidPendingClarification;
    hide MissingSkillsFeedback, Delivery.Verify, MissingSkillDirs, Trim, ValidLimits, Utf8Len;
  }

  lemma FinalIsValid(s: RuntimeState, final: FinalDecision, evidence: Delivery.Evidence)
    requires Advanceable(s) && ValidFinal(final)
    requires s.expectedDelivery == None || s.expectedDelivery == Some(final.expectedDelivery)
    ensures var missing := MissingSkillDirs(s.configuration.skills, s.loadedSkillDirs);
            Valid(AdvanceFinal(Cleared(s, final.expectedDelivery), final, evidence).state) <==>
            !(missing != [] && FeedbackLength(missing) > FEEDBACK_LIMIT)
  {
    hide Quiet, Valid, ValidFinal, ValidFeedback, MissingSkillsFeedback, FeedbackLength, Delivery.Verify, MissingSkillDirs, Trim;
    var missing := MissingSkillDirs(s.configuration.skills, s.loadedSkillDirs);
    if missing != [] {
      MissingDirsAreSelected(s);
      MissingSkillsFeedbackFits(missing);
    }
    FinalIsQuiet(s, final, evidence);
    QuietStepIsValid(s, AdvanceFinal(Cleared(s, final.expectedDelivery), final, evidence).state);
  }

  lemma AdvanceKeepsValid(s: RuntimeState, input: RuntimeInput, toolSchema: int)
    requires AdvanceForToolSchema(s, input, toolSchema).Success?
    ensures Valid(AdvanceForToolSchema(s, input, toolSchema).value.state) <==> !Overflows(s, Advance(input, toolSchema))
  {
    hide ContractChanged, AdvanceClarification, AdvanceToolCall, AdvanceFinal, Cleared, Valid, MissingSkillDirs, FeedbackLength;
    hide ValidCall, ValidFinal, C.ValidRequest;
    var d := input.decision;
    if ConflictsWithContract(s, d) {
      ContractChangedIsValid(s);
    } else {
      match d.kind {
        case ClarificationKind => ClarificationIsValid(s, C.TrimRequest(d.clarification.value));
        case ToolCallKind => ToolCallIsValid(s, d.toolCall.value);
        case FinalKind => FinalIsValid(s, d.final.value, input.evidence);
        case UnknownDecisionKind =>
      }
    }
  }

  lemma RejectModelDecisionKeepsValid(s: RuntimeState, feedback: Feedback)
    requires RejectModelDecision(s, feedback).Success?
    ensures Valid(RejectModelDecision(s, feedback).value.state)
  {
    hide Delivery.ValidDelivery, ValidPendingSteers, ValidUserMessage, ValidConfiguration, ValidLoadedSkillDirs, ValidHistory,
      ValidPendingClarification;
    hide Utf8Len;
    QuietStepIsValid(s, RejectModelDecision(s, feedback).value.state);
  }

  lemma RejectReusedKeepsValid(s: RuntimeState, call: ToolCall)
    requires RejectReusedToolIdentity(s, call).Success?
    ensures Valid(RejectReusedToolIdentity(s, call).value.state)
  {
    hide Delivery.ValidDelivery, ValidPendingSteers, ValidUserMessage, ValidConfiguration, ValidLoadedSkillDirs, ValidHistory,
      ValidPendingClarification;
    hide ValidCall;
    QuietStepIsValid(s, RejectReusedToolIdentity(s, call).value.state);
  }

  lemma RejectToolKeepsValid(s: RuntimeState, failure: ToolFailure)
    requires RejectToolDecision(s, failure).Success?
    ensures Valid(RejectToolDecision(s, failure).value.state)
  {
    hide Delivery.ValidDelivery, ValidPendingSteers, ValidUserMessage, ValidConfiguration, ValidLoadedSkillDirs, ValidHistory,
      ValidPendingClarification;
    hide ValidFailureCode, ValidOutput, Trim;
    QuietStepIsValid(s, RejectToolDecision(s, failure).value.state);
  }

  lemma ResolveIsQuiet(s: RuntimeState, r: ToolResolution)
    requires ResolveTool(s, r).Success?
    ensures var t := ResolveTool(s, r).value.state; Valid(s) && Quiet(s, t) && t.decisionFeedback == s.decisionFeedback
  {
    hide ValidFeedback, Delivery.ValidDelivery, ValidPendingSteers, ValidUserMessage, ValidConfiguration,
      ValidLoadedSkillDirs, ValidHistory, ValidPendingClarification;
    hide ValidFailureCode, ValidOutput, ConsistentResolution, AddLoadedSkillDir, ResolvedSkillDir, Trim, ValidLimits,
      Identifies, Utf8Len;
    if r.succeeded && s.pendingToolCall.value.toolName.SkillsLoad? {
      var dir := ResolvedSkillDir(s.configuration.skills, r.output).value;
      SelectedIsTrimmed(s, dir);
      AddLoadedKeepsValid(s.configuration.skills, s.loadedSkillDirs, dir);
    }
  }

  lemma ResolveKeepsValid(s: RuntimeState, r: ToolResolution)
    requires ResolveTool(s, r).Success?
    ensures Valid(ResolveTool(s, r).value.state)
  {
    hide ResolveTool, Quiet, ValidFeedback, ValidBoundary, ValidToolState, ValidPendingSteers, ValidClarificationState, ValidUserMessage,
      ValidConfiguration, ValidLoadedSkillDirs, Delivery.ValidDelivery, ValidLimits;
    ResolveIsQuiet(s, r);
    QuietStepIsValid(s, ResolveTool(s, r).value.state);
  }

  lemma SelectedIsTrimmed(s: RuntimeState, dir: string)
    requires Valid(s) && Selected(s.configuration.skills, dir)
    ensures Trimmed(dir) && dir != "" && ValidLoadedSkillDirs(s.configuration.skills, s.loadedSkillDirs)
  {
    hide ValidClarificationState, Delivery.ValidDelivery, ValidFeedback, ValidPendingSteers;
  }

  lemma BeginToolKeepsValid(s: RuntimeState, e: ToolExecution)
    requires BeginToolExecution(s, e).Success?
    ensures Valid(BeginToolExecution(s, e).value.state)
  {
    hide Delivery.ValidDelivery, ValidPendingSteers, ValidUserMessage, ValidConfiguration, ValidLoadedSkillDirs, ValidHistory,
      ValidPendingClarification;
    hide ValidFeedback;
    QuietStepIsValid(s, BeginToolExecution(s, e).value.state);
  }

  lemma ApproveKeepsValid(s: RuntimeState, a: ToolApproval, out: Transition)
    requires a.decision.Approve? && ReviewToolApproval(s, a) == Success(out)
    ensures Valid(out.state)
  {
    hide ValidFeedback, Delivery.ValidDelivery, ValidPendingSteers, ValidUserMessage, ValidConfiguration,
      ValidLoadedSkillDirs, ValidHistory, ValidPendingClarification;
    hide SyntheticResult, Identifies, ValidLimits, Trim;
    QuietStepIsValid(s, out.state);
  }

  lemma RejectKeepsValid(s: RuntimeState, a: ToolApproval, out: Transition)
    requires a.decision.Reject? && ReviewToolApproval(s, a) == Success(out)
    ensures Valid(out.state)
  {
    hide ValidFeedback, Delivery.ValidDelivery, ValidPendingSteers, ValidUserMessage, ValidConfiguration,
      ValidLoadedSkillDirs, ValidHistory, ValidPendingClarification;
    hide SyntheticResult, Identifies, ValidLimits, Trim;
    QuietStepIsValid(s, out.state);
  }

  lemma ReviewKeepsValid(s: RuntimeState, a: ToolApproval)
    requires ReviewToolApproval(s, a).Success?
    ensures Valid(ReviewToolApproval(s, a).value.state)
  {
    hide Valid, SyntheticResult, Identifies, Trim;
    var out := ReviewToolApproval(s, a).value;
    if a.decision.Approve? {
      ApproveKeepsValid(s, a, out);
    } else {
      RejectKeepsValid(s, a, out);
    }
  }

  lemma InvalidateKeepsValid(s: RuntimeState, i: ToolApprovalInvalidation)
    requires InvalidateToolApproval(s, i).Success?
    ensures Valid(InvalidateToolApproval(s, i).value.state)
  {
    hide Delivery.ValidDelivery, ValidPendingSteers, ValidUserMessage, ValidConfiguration, ValidLoadedSkillDirs, ValidHistory,
      ValidPendingClarification;
    hide ValidFeedback, SyntheticResult, CauseCode, Trim;
    QuietStepIsValid(s, InvalidateToolApproval(s, i).value.state);
  }

  lemma EndingKeepsValid(s: RuntimeState, version: int, code: string, now: int)
    ensures Interrupt(s, version).Success? ==> Valid(Interrupt(s, version).value.state)
    ensures Terminate(s, code).Success? ==> Valid(Terminate(s, code).value.state)
    ensures Fail(s, code).Success? ==> Valid(Fail(s, code).value.state)
    ensures ExpireRuntimeAt(s, now).Success? ==> Valid(ExpireRuntimeAt(s, now).value.state)
  {
    hide ValidFeedback, Delivery.ValidDelivery, ValidPendingSteers, ValidUserMessage, ValidConfiguration,
      ValidLoadedSkillDirs, ValidHistory, ValidPendingClarification;
    hide ValidFailureCode, Trim;
    if Terminate(s, code).Success? {
      QuietStepIsValid(s, Terminate(s, code).value.state);
    }
    if Fail(s, code).Success? {
      QuietStepIsValid(s, Fail(s, code).value.state);
    }
    if Terminate(s, RUNTIME_DEADLINE_EXCEEDED).Success? {
      QuietStepIsValid(s, Terminate(s, RUNTIME_DEADLINE_EXCEEDED).value.state);
    }
  }

  lemma SteeringKeepsValid(s: RuntimeState, request: SteerRequest)
    ensures AppendSteer(s, request).Success? ==> Valid(AppendSteer(s, request).value.state)
    ensures ConsumePendingSteers(s).Success? ==> Valid(ConsumePendingSteers(s).value.state)
    ensures BeginModelRequest(s).Success? ==> Valid(BeginModelRequest(s).value.state)
  {
    hide Valid;
  }

  lemma ReplayIsValid(s: RuntimeState, pending: Transition, replay: ToolReplay, out: Transition)
    requires (pending.state.status.WaitingApproval? ==> Valid(pending.state)) && ReplayResolvedTool(s, pending, replay) == Success(out)
    ensures Valid(out.state)
  {
    hide ValidFeedback, Delivery.ValidDelivery, ValidPendingSteers, ValidUserMessage, ValidConfiguration,
      ValidLoadedSkillDirs, ValidHistory, ValidPendingClarification;
    hide ConsistentResolution, ValidOutput, Trim;
    QuietStepIsValid(pending.state, out.state);
  }

  lemma OverflowNeverWaits(s: RuntimeState, input: RuntimeInput, toolSchema: int)
    requires Overflows(s, Advance(input, toolSchema)) && AdvanceForToolSchema(s, input, toolSchema).Success?
    ensures !AdvanceForToolSchema(s, input, toolSchema).value.state.status.WaitingApproval?
  {
    hide Valid, ValidCall, ValidFinal, C.ValidRequest, MissingSkillDirs, FeedbackLength, MissingSkillsFeedback, Trim;
  }

  lemma ReplayKeepsValid(s: RuntimeState, input: RuntimeInput, toolSchema: int, replay: ToolReplay)
    requires AdvanceThenReplay(s, input, toolSchema, replay).Success?
    ensures Valid(AdvanceThenReplay(s, input, toolSchema, replay).value.state)
  {
    hide Valid, AdvanceForToolSchema, ReplayResolvedTool, MissingSkillDirs, FeedbackLength;
    AdvanceKeepsValid(s, input, toolSchema);
    var pending := AdvanceForToolSchema(s, input, toolSchema).value;
    if Overflows(s, Advance(input, toolSchema)) {
      OverflowNeverWaits(s, input, toolSchema);
    }
    ReplayIsValid(s, pending, replay, AdvanceThenReplay(s, input, toolSchema, replay).value);
  }

  lemma HistoryStaysValid(history: seq<C.Completed>, delivery: Option<Delivery.ExpectedDelivery>, completed: C.Completed)
    requires ValidHistory(history, delivery) && C.ValidCompleted(completed) && delivery == Some(completed.request.expectedDelivery)
    requires !CompletedRequest(history, completed.request.requestId)
    ensures ValidHistory(history + [completed], delivery)
  {
    hide C.ValidCompleted;
    var longer := history + [completed];
    forall i, j | 0 <= i < j < |longer| ensures longer[i].request.requestId != longer[j].request.requestId {
      assert longer[i] == history[i] && history[i] in history;
    }
  }

  lemma AnswerKeepsValid(s: RuntimeState, submission: Submission)
    requires Valid(s) && s.pendingClarification.Some?
    requires CompletedByRequestId(s.clarificationHistory, s.pendingClarification.value.request.requestId).None?
    requires C.BoundedText(Trim(submission.questionId), 120) && submission.expectedStateVersion >= 1
    requires AnswerPending(s, s.pendingClarification.value, submission).Success?
    ensures Valid(AnswerPending(s, s.pendingClarification.value, submission).value.state)
  {
    hide Delivery.ValidDelivery, ValidPendingSteers, ValidUserMessage, ValidConfiguration, ValidLoadedSkillDirs,
      ValidFeedback, ValidHistory;
    hide C.ValidRequest, C.CanonicalAnswer, C.CanonicalFor, C.Upsert, C.Complete, C.BoundedText, C.DistinctAnswers, Trim,
      C.ValidRecord;
    var pending := s.pendingClarification.value;
    var answer := C.CanonicalAnswer(pending.request, Trim(submission.questionId), submission.answer).value;
    AnswerIsRecorded(pending.request, pending.answers, Trim(submission.questionId), submission.answer);
    var t := AnswerPending(s, pending, submission).value.state;
    if submission.complete {
      var answers := C.Upsert(pending.request, pending.answers, answer);
      var completed := C.Completed(pending.request, answers, Trim(submission.questionId), submission.expectedStateVersion);
      HistoryStaysValid(s.clarificationHistory, s.expectedDelivery, completed);
    }
  }

  /** A canonical answer joins a valid record, and completes it when every question is answered. */
  lemma AnswerIsRecorded(request: C.Request, answers: seq<C.Answer>, questionId: string, input: C.AnswerInput)
    requires C.ValidRecord(request, answers, false) && C.CanonicalAnswer(request, questionId, input).Success?
    ensures var answer := C.CanonicalAnswer(request, questionId, input).value;
            var r := C.Upsert(request, answers, answer);
            && answer.questionId == questionId
            && C.AnswerFor(r, questionId) == Some(answer)
            && C.ValidRecord(request, r, false)
            && (C.Complete(request, r) ==> C.ValidRecord(request, r, true))
  {
    C.CanonicalAnswerIdempotent(request, questionId, input);
    C.UpsertThenLookup(request, answers, C.CanonicalAnswer(request, questionId, input).value);
  }

  lemma ClarifyKeepsValid(s: RuntimeState, submission: Submission)
    requires ApplyClarificationResponse(s, submission).Success?
    ensures Valid(ApplyClarificationResponse(s, submission).value.state)
  {
    hide Valid, AnswerPending, C.CanonicalAnswer, C.BoundedText;
    if CompletedByRequestId(s.clarificationHistory, Trim(submission.requestId)).None? {
      AnswerKeepsValid(s, submission);
    }
  }

  /** Every accepted step leads from a valid state to a valid one, except exactly when it has to
      name unloaded skills that do not fit in one feedback. */
  lemma StepKeepsValid(s: RuntimeState, op: Op)
    requires Apply(s, op).Success?
    ensures Valid(s)
    ensures Valid(Apply(s, op).value.state) <==> !Overflows(s, op)
  {
    hide Valid, Overflows, AdvanceForToolSchema, AdvanceThenReplay, RejectModelDecision, RejectReusedToolIdentity,
      RejectToolDecision;
    hide ResolveTool, BeginToolExecution, ReviewToolApproval, InvalidateToolApproval, ApplyClarificationResponse, AppendSteer;
    hide ConsumePendingSteers, Interrupt, Terminate, Fail, ExpireRuntimeAt, BeginModelRequest;
    OnlyFromValid(s, op);
    OverflowNeedsDecision(s, op);
    match op {
      case Advance(input, toolSchema) => AdvanceKeepsValid(s, input, toolSchema);
      case AdvanceExternal(version, input) =>
        ExternalIsAdvance(s, version, input);
        AdvanceKeepsValid(s, input, CURRENT_TOOL_SCHEMA);
      case RejectModel(feedback) => RejectModelDecisionKeepsValid(s, feedback);
      case RejectReused(call) => RejectReusedKeepsValid(s, call);
      case RejectTool(failure) => RejectToolKeepsValid(s, failure);
      case Resolve(resolution) => ResolveKeepsValid(s, resolution);
      case BeginTool(execution) => BeginToolKeepsValid(s, execution);
      case Review(review) => ReviewKeepsValid(s, review);
      case Invalidate(invalidation) => InvalidateKeepsValid(s, invalidation);
      case Clarify(submission) => ClarifyKeepsValid(s, submission);
      case SteerRun(request) => SteeringKeepsValid(s, request);
      case ConsumeSteers => SteeringKeepsValid(s, SteerRequest("", "", 0));
      case InterruptRun(version) => EndingKeepsValid(s, version, "", 0);
      case TerminateRun(code) => EndingKeepsValid(s, 0, code, 0);
      case FailRun(code) => EndingKeepsValid(s, 0, code, 0);
      case Expire(now) => EndingKeepsValid(s, 0, "", now);
      case BeginModel => SteeringKeepsValid(s, SteerRequest("", "", 0));
      case Replay(input, toolSchema, replay) => ReplayKeepsValid(s, input, toolSchema, replay);
    }
  }

  lemma OverflowNeedsDecision(s: RuntimeState, op: Op)
    ensures Overflows(s, op) ==> op.Advance? || op.AdvanceExternal?
    ensures forall input, version, toolSchema ::
              Overflows(s, AdvanceExternal(version, input)) == Overflows(s, Advance(input, toolSchema))
  {
    hide MissingSkillDirs, FeedbackLength;
  }

  lemma ExternalIsAdvance(s: RuntimeState, version: int, input: RuntimeInput)
    requires AdvanceExternalDecision(s, version, input).Success?
    ensures AdvanceExternalDecision(s, version, input) == AdvanceForToolSchema(s, input, CURRENT_TOOL_SCHEMA)
  {
    hide AdvanceForToolSchema, Valid;
  }

  /** No transition, not even an interruption, is accepted on an invalid state. */
  lemma OnlyFromValid(s: RuntimeState, op: Op)
    ensures Apply(s, op).Success? ==> Valid(s)
  {
    hide Valid, AdvanceFinal, AdvanceToolCall, AdvanceClarification, ContractChanged, AnswerPending, ReplayClarification;
    hide ValidDecision, ValidCall, ValidFeedback, ValidOutput, ConsistentResolution, ValidFailureCode, Trim, Cleared, Exhausted;
  }

  /** Every valid state that is not terminal can be interrupted. */
  lemma ValidIsInterruptible(s: RuntimeState)
    requires Valid(s) && !s.status.Terminal()
    ensures Interrupt(s, s.stateVersion).Success?
  {
    hide ValidFeedback, Delivery.ValidDelivery, ValidUserMessage, ValidConfiguration, ValidLoadedSkillDirs, ValidHistory,
      ValidPendingClarification;
    var cancelled := s.(
      stateVersion := s.stateVersion + 1, status := Cancelled, pendingSteers := [], pendingClarification := None,
      decisionFeedback := None, verification := None, failureCode := "");
    QuietStepIsValid(s, cancelled);
    if !s.pendingToolStarted {
      QuietStepIsValid(s, cancelled.(pendingToolCall := None, pendingToolStarted := false));
    }
  }
}
