/** What the transitions accept and leave behind, said on the fields of states and requests alone. */
module RuntimeOutcomes {
  import opened Text
  import opened Ordering
  import opened Runtime
  import opened RuntimeSteps
  import opened RuntimeRuns
  import Delivery
  import C = Clarification

  // ---------------------------------------------------------------- the approval gate

  /** The tools that write or cost something. */
  predicate Guarded(name: ToolName) {
    name in {CanvasApplyOps, AssetsPublish, MediaGenerate, VisionAnalyze}
  }

  /** The tools that only read. */
  predicate Free(name: ToolName) {
    name in {CanvasRead, AssetsRead, SkillsLoad}
  }

  /** The policy of each tool: three read, two write, and the rest cost something. */
  lemma PolicyExactly(name: ToolName)
    requires CurrentTool(name)
    ensures RiskOf(name).ReadRisk? <==> name in {CanvasRead, AssetsRead, SkillsLoad}
    ensures RiskOf(name).WriteRisk? <==> name in {CanvasApplyOps, AssetsPublish}
    ensures RiskOf(name).CostRisk? <==> name in {MediaGenerate, VisionAnalyze}
  {
  }

  lemma RiskyExactly(call: ToolCall)
    ensures Risky(call) <==> Guarded(call.toolName)
  {
  }

  /** A call that is issued waits for approval if its tool is a guarded one, and for its result if
      the tool is a free one; every call issued is one or the other. */
  predicate Gated(name: ToolName, status: RunStatus, events: seq<EventKind>) {
    && (status.WaitingApproval? <==> Guarded(name))
    && (status.WaitingTool? <==> Free(name))
    && (ApprovalRequired in events <==> Guarded(name))
  }

  /** What a decision to call a tool leads to when it is in line with the contract. */
  lemma CallOutcome(s: RuntimeState, call: ToolCall)
    requires CurrentTool(call.toolName) && s.stepNumber < s.maxSteps
    ensures var out := AdvanceToolCall(Cleared(s, call.expectedDelivery), call); var t := out.state;
            if s.stepNumber + 1 == s.maxSteps
            then t.status.Failed? && t.failureCode == "step_budget_exhausted" && out.events == [RunFailed] && t.pendingToolCall.None?
            else if s.limits.Some? && s.limits.value.toolCallsUsed >= s.limits.value.maxToolCalls
            then t.status.Failed? && t.failureCode == "tool_call_budget_exhausted" && out.events == [RunFailed] && t.pendingToolCall.None?
            else
              && ToolCalled in out.events && !t.pendingToolStarted
              && t.pendingToolCall == Some(call.(toolCallId := Trim(call.toolCallId)))
              && Gated(call.toolName, t.status, out.events)
  {
    hide Trim;
  }

  lemma AdvanceIsGated(s: RuntimeState, input: RuntimeInput, toolSchema: int, out: Transition)
    requires AdvanceForToolSchema(s, input, toolSchema) == Success(out) && ToolCalled in out.events
    ensures out.state.pendingToolCall.Some? && Gated(out.state.pendingToolCall.value.toolName, out.state.status, out.events)
  {
    hide Valid, Trim, Delivery.Verify, Delivery.ValidDelivery, MissingSkillDirs, MissingSkillsFeedback, C.ValidRequest, ValidFinal, Gated;
    var d := input.decision;
    if d.kind.ToolCallKind? && !ConflictsWithContract(s, d) {
      CallOutcome(s, d.toolCall.value);
    }
  }

  /** Whatever the request and the execution mode: an issued call waits for approval exactly when its
      tool writes or costs something, and runs at once exactly when it only reads. */
  lemma GateExactly(s: RuntimeState, op: Op, out: Transition)
    requires Apply(s, op) == Success(out) && ToolCalled in out.events && out.state.pendingToolCall.Some?
    ensures out.state.status.WaitingApproval? <==>
            out.state.pendingToolCall.value.toolName in {CanvasApplyOps, AssetsPublish, MediaGenerate, VisionAnalyze}
    ensures out.state.status.WaitingTool? <==> out.state.pendingToolCall.value.toolName in {CanvasRead, AssetsRead, SkillsLoad}
    ensures ApprovalRequired in out.events <==> out.state.status.WaitingApproval?
  {
    hide AdvanceForToolSchema, ReplayResolvedTool, ToolFacts, ApprovalFacts, SteerFacts, SuccessFacts, LoadFacts, Moves, Apply;
    AcceptedStep(s, op);
    OnlyDecisionsIssue(s, op, out);
    match op {
      case Advance(input, toolSchema) => AppliesAdvance(s, op, out); AdvanceIsGated(s, input, toolSchema, out);
      case AdvanceExternal(version, input) =>
        AppliesAdvance(s, op, out);
        ExternalIsAdvance(s, version, input);
        AdvanceIsGated(s, input, CURRENT_TOOL_SCHEMA, out);
      case Replay(input, toolSchema, replay) => ReplayHoldsNoCall(s, input, toolSchema, replay, out);
      case _ =>
    }
  }

  lemma AppliesAdvance(s: RuntimeState, op: Op, out: Transition)
    requires Apply(s, op) == Success(out)
    ensures op.Advance? ==> AdvanceForToolSchema(s, op.input, op.toolSchema) == Success(out)
    ensures op.AdvanceExternal? ==> AdvanceExternalDecision(s, op.expectedVersion, op.externalInput) == Success(out)
  {
    hide AdvanceForToolSchema, AdvanceExternalDecision;
  }

  lemma OnlyDecisionsIssue(s: RuntimeState, op: Op, out: Transition)
    requires ToolFacts(s, op, out) && ToolCalled in out.events && out.state.pendingToolCall.Some?
    ensures DecisionOf(op).Some?
  {
    hide ToolEvents, UsedCalls, Risky, Trim;
  }

  lemma ReplayHoldsNoCall(s: RuntimeState, input: RuntimeInput, toolSchema: int, replay: ToolReplay, out: Transition)
    requires Apply(s, Replay(input, toolSchema, replay)) == Success(out)
    ensures out.state.pendingToolCall.None?
  {
    hide Valid, Trim, AdvanceForToolSchema, ValidOutput, ConsistentResolution;
  }

  // ---------------------------------------------------------------- tool results

  function FailedResult(id: string, version: int, code: string): ToolResult {
    ToolResult(id, version, false, Output("{}", true, None), code)
  }

  /** What the pending call gets when the run is ended from outside. */
  function CutShort(s: RuntimeState, code: string): Option<ToolResult> {
    if s.pendingToolCall.None? then None
    else Some(FailedResult(s.pendingToolCall.value.toolCallId, s.pendingToolCall.value.actionVersion, code))
  }

  predicate Overdue(s: RuntimeState, now: int) {
    s.limits.Some? && !s.status.Terminal() && s.limits.value.deadlineAt <= now
  }

  function ReportedResult(r: ToolResolution): ToolResult {
    ToolResult(Trim(r.toolCallId), r.actionVersion, r.succeeded, r.output, Trim(r.errorCode))
  }

  /** The tool result that a request brings, whole. */
  function Supplied(s: RuntimeState, op: Op): Option<ToolResult> {
    match op
    case Resolve(r) => Some(ReportedResult(r))
    case Replay(_, _, replay) => Some(ReportedResult(replay.result))
    case RejectTool(f) =>
      Some(ToolResult(Trim(f.call.toolCallId), f.call.actionVersion, false, f.output, Trim(f.errorCode)))
    case RejectReused(call) =>
      Some(ToolResult(Trim(call.toolCallId), call.actionVersion, false,
                      Output("{\"reason\":\"toolCallId and actionVersion were already used\"}", true, None), "tool_identity_reused"))
    case Review(a) =>
      if a.decision.Reject? then Some(FailedResult(Trim(a.toolCallId), a.actionVersion, "tool_approval_rejected"))
      else if s.stepNumber >= s.maxSteps then Some(FailedResult(Trim(a.toolCallId), a.actionVersion, "step_budget_exhausted"))
      else None
    case Invalidate(i) =>
      Some(FailedResult(Trim(i.toolCallId), i.actionVersion,
                        if i.cause.ProposalExpired? then "approval_proposal_expired" else "approval_proposal_mismatch"))
    case TerminateRun(code) => CutShort(s, Trim(code))
    case Expire(now) => if Overdue(s, now) then CutShort(s, "runtime_deadline_exceeded") else None
    case _ => None
  }

  /** The contract a decision names. */
  function ContractOf(d: ModelDecision): Option<Delivery.ExpectedDelivery> {
    if d.toolCall.Some? then Some(d.toolCall.value.expectedDelivery)
    else if d.clarification.Some? then Some(d.clarification.value.expectedDelivery)
    else if d.final.Some? then Some(d.final.value.expectedDelivery)
    else None
  }

  /** A decision in line with the contract starts afresh: it drops the result of the step before. */
  predicate StartsAfresh(s: RuntimeState, op: Op) {
    && (op.Advance? || op.AdvanceExternal?)
    && (s.expectedDelivery.None? || s.expectedDelivery == ContractOf(DecisionOf(op).value))
  }

  /** After a step the state holds the result the request brought; without one it holds none if the
      step starts afresh, and otherwise what it held before. */
  predicate ResultFacts(s: RuntimeState, op: Op, out: Transition) {
    && (ToolResulted in out.events <==> Supplied(s, op).Some?)
    && out.state.lastToolResult ==
         (if Supplied(s, op).Some? then Supplied(s, op) else if StartsAfresh(s, op) then None else s.lastToolResult)
  }

  lemma ResolveResult(s: RuntimeState, r: ToolResolution, out: Transition)
    requires ResolveTool(s, r) == Success(out)
    ensures ResultFacts(s, Resolve(r), out)
  {
    hide Valid, Trim, AddLoadedSkillDir, ResolvedSkillDir, ConsistentResolution, ValidOutput;
  }

  lemma ReplayResult(s: RuntimeState, input: RuntimeInput, toolSchema: int, replay: ToolReplay, out: Transition)
    requires AdvanceThenReplay(s, input, toolSchema, replay) == Success(out)
    ensures ResultFacts(s, Replay(input, toolSchema, replay), out)
  {
    hide Valid, Trim, AdvanceForToolSchema, ConsistentResolution, ValidOutput;
  }

  lemma RejectToolResult(s: RuntimeState, failure: ToolFailure, out: Transition)
    requires RejectToolDecision(s, failure) == Success(out)
    ensures ResultFacts(s, RejectTool(failure), out)
  {
    hide Valid, Trim, ValidCall, ValidOutput, ValidFailureCode;
  }

  lemma RejectReusedResult(s: RuntimeState, call: ToolCall, out: Transition)
    requires RejectReusedToolIdentity(s, call) == Success(out)
    ensures ResultFacts(s, RejectReused(call), out)
  {
    hide Valid, Trim, ValidCall;
  }

  lemma ReviewResult(s: RuntimeState, a: ToolApproval, out: Transition)
    requires ReviewToolApproval(s, a) == Success(out)
    ensures ResultFacts(s, Review(a), out)
  {
    hide Valid, Trim;
  }

  lemma InvalidateResult(s: RuntimeState, i: ToolApprovalInvalidation, out: Transition)
    requires InvalidateToolApproval(s, i) == Success(out)
    ensures ResultFacts(s, Invalidate(i), out)
  {
    hide Valid, Trim;
  }

  lemma TerminateResult(s: RuntimeState, code: string, out: Transition)
    requires Terminate(s, code) == Success(out)
    ensures ResultFacts(s, TerminateRun(code), out)
  {
    hide Valid, Trim, ValidFailureCode;
  }

  predicate CodeChars(code: string) {
    forall i :: 0 <= i < |code| ==> 'a' <= code[i] <= 'z' || '0' <= code[i] <= '9' || code[i] == '_'
  }

  lemma CodeIsValid(code: string)
    requires CodeChars(code) && 0 < |code| <= 80
    ensures Trim(code) == code && ValidFailureCode(code)
  {
    hide Trim;
    AsciiLen(code);
    assert Trimmed(code);
  }

  /** The code of an overdue run is a valid one and has nothing to trim. */
  lemma DeadlineCode()
    ensures Trim("runtime_deadline_exceeded") == "runtime_deadline_exceeded" && ValidFailureCode("runtime_deadline_exceeded")
  {
    hide Trim, ValidFailureCode;
    CodeIsValid("runtime_deadline_exceeded");
  }

  /** On a valid state a deadline check ends the run exactly when the run is overdue: it fails with the
      code of the deadline, and a call still pending gets that code as its result. Otherwise nothing
      changes. */
  lemma ExpireExactly(s: RuntimeState, now: int)
    requires Valid(s) && now != 0
    ensures ExpireRuntimeAt(s, now).Success?
    ensures var out := ExpireRuntimeAt(s, now).value;
            if s.limits.Some? && !s.status.Terminal() && s.limits.value.deadlineAt <= now
            then out.state.status.Failed? && out.state.failureCode == "runtime_deadline_exceeded" && RunFailed in out.events
                 && out.state.pendingToolCall.None? && out.state.pendingClarification.None?
            else out == Transition(s, [])
  {
    hide Valid, Trim, ValidFailureCode;
    DeadlineCode();
  }

  lemma ExpireResult(s: RuntimeState, now: int, out: Transition)
    requires ExpireRuntimeAt(s, now) == Success(out)
    ensures ResultFacts(s, Expire(now), out)
  {
    hide Valid, Trim, ValidFailureCode;
    DeadlineCode();
  }

  // ---------------------------------------------------------------- tools: what is accepted, and what it leaves

  predicate JsonObject(o: Output) {
    o.wellFormed && o.text != "" && o.text[0] == '{' && Utf8Len(o.text) <= 262144
  }

  predicate FailureCodeShape(code: string) {
    code != "" && Utf8Len(code) <= 80 && CodeChars(code)
  }

  /** A success says nothing of a failure; a failure says how it failed and whether that is final. */
  predicate Coherent(r: ToolResolution) {
    if r.succeeded then Trim(r.errorCode) == "" && r.failureClass == NoFailure
    else FailureCodeShape(Trim(r.errorCode)) && r.failureClass in {AgentRepairable, TerminalFailure}
  }

  predicate Names(s: RuntimeState, id: string, version: int) {
    s.pendingToolCall.Some? && s.pendingToolCall.value.toolCallId == Trim(id) && s.pendingToolCall.value.actionVersion == version
  }

  /** The output shows a skill exactly as it is frozen in the configuration. */
  predicate ShowsFrozenSkill(s: RuntimeState, output: Output) {
    output.skillsLoad.Some?
    && var l := output.skillsLoad.value; Skill(l.dir, l.version, l.checksum, l.instructions) in s.configuration.skills
  }

  predicate LoadsSkill(s: RuntimeState, r: ToolResolution) {
    r.succeeded && s.pendingToolCall.Some? && s.pendingToolCall.value.toolName == SkillsLoad
  }

  /** The state with a call just ended, failed with a code if there is one. */
  function CallEnds(s: RuntimeState, code: string, result: ToolResult): RuntimeState {
    s.(stateVersion := s.stateVersion + 1, status := if code != "" then Failed else Running, failureCode := code,
       pendingToolCall := None, pendingToolStarted := false, lastToolResult := Some(result))
  }

  function SpentCode(s: RuntimeState): string {
    if s.stepNumber >= s.maxSteps then "step_budget_exhausted" else ""
  }

  /** A result is accepted exactly for the call that is waited for, with a coherent outcome, and for a
      loaded skill exactly as it was frozen; it ends the wait and, if it is a final failure or no step is
      left, the run. */
  lemma ResolveExactly(s: RuntimeState, r: ToolResolution)
    ensures ResolveTool(s, r).Success? <==>
            && Valid(s) && s.status.WaitingTool? && Names(s, r.toolCallId, r.actionVersion)
            && JsonObject(r.output) && Coherent(r) && (LoadsSkill(s, r) ==> ShowsFrozenSkill(s, r.output))
    ensures ResolveTool(s, r).Success? ==>
              var out := ResolveTool(s, r).value; var final := !r.succeeded && r.failureClass == TerminalFailure;
              var code := if final then Trim(r.errorCode) else SpentCode(s);
              && out.state == CallEnds(s, code, ReportedResult(r)).(
                                loadedSkillDirs := out.state.loadedSkillDirs, failureCode := if code != "" then code else s.failureCode)
              && (!LoadsSkill(s, r) ==> out.state.loadedSkillDirs == s.loadedSkillDirs)
              && out == Transition(out.state, [ToolResulted, if code != "" then RunFailed else RunStatusChanged])
  {
    hide Valid, Trim, AddLoadedSkillDir;
  }

  /** Execution begins once, for the call that is waited for, and changes nothing else. */
  lemma BeginToolExactly(s: RuntimeState, e: ToolExecution)
    ensures BeginToolExecution(s, e).Success? <==>
            Valid(s) && s.status.WaitingTool? && !s.pendingToolStarted && Names(s, e.toolCallId, e.actionVersion)
    ensures BeginToolExecution(s, e).Success? ==>
              BeginToolExecution(s, e).value == Transition(s.(stateVersion := s.stateVersion + 1, pendingToolStarted := true), [ToolStarted])
  {
    hide Valid, Trim;
  }

  /** A review is accepted exactly for the call that waits for it. An approval lets the very same call
      run, unless no step is left; a rejection drops it and hands the run back to the model. */
  lemma ReviewExactly(s: RuntimeState, a: ToolApproval)
    ensures ReviewToolApproval(s, a).Success? <==>
            Valid(s) && s.status.WaitingApproval? && Names(s, a.toolCallId, a.actionVersion) && !a.decision.UnknownApproval?
    ensures ReviewToolApproval(s, a).Success? ==>
              var out := ReviewToolApproval(s, a).value; var spent := s.stepNumber >= s.maxSteps;
              if a.decision == Approve && !spent then
                && out.state == s.(stateVersion := s.stateVersion + 1, status := WaitingTool)
                && out == Transition(out.state, [ApprovalDecided, RunStatusChanged],
                                     approval := Some(Approved), proposalHash := Trim(a.proposalHash))
              else
                var code := if a.decision == Approve then "step_budget_exhausted" else "tool_approval_rejected";
                && out.state == CallEnds(s, SpentCode(s), FailedResult(Trim(a.toolCallId), a.actionVersion, code))
                && out == Transition(out.state, [ApprovalDecided, ToolResulted, if spent then RunFailed else RunStatusChanged],
                                     approval := Some(if a.decision == Approve then Approved else Rejected),
                                     proposalHash := Trim(a.proposalHash))
  {
    hide Valid, Trim;
  }

  /** An approval is withdrawn exactly for the call that waits for it, for one of the two known reasons
      and with a proposal hash in form; the call is dropped with that reason as its result. */
  lemma InvalidateExactly(s: RuntimeState, i: ToolApprovalInvalidation)
    ensures InvalidateToolApproval(s, i).Success? <==>
            Valid(s) && s.status.WaitingApproval? && Names(s, i.toolCallId, i.actionVersion) && i.hashValid
            && i.cause in {ProposalExpired, ProposalMismatch}
    ensures InvalidateToolApproval(s, i).Success? ==>
              var out := InvalidateToolApproval(s, i).value; var spent := s.stepNumber >= s.maxSteps;
              && out.state == CallEnds(s, SpentCode(s), FailedResult(Trim(i.toolCallId), i.actionVersion,
                                if i.cause == ProposalExpired then "approval_proposal_expired" else "approval_proposal_mismatch"))
              && out == Transition(out.state, [ToolResulted, if spent then RunFailed else RunStatusChanged],
                                   approval := Some(Invalidated), proposalHash := Trim(i.proposalHash))
  {
    hide Valid, Trim;
  }

  predicate CanAdvance(s: RuntimeState) {
    Valid(s) && s.status in {Queued, Running} && s.stepNumber < s.maxSteps
  }

  predicate CallInForm(call: ToolCall) {
    && 0 < |Trim(call.toolCallId)| && Utf8Len(Trim(call.toolCallId)) <= 120
    && (Guarded(call.toolName) || Free(call.toolName))
    && call.actionVersion >= 1 && call.arguments.decodes && Delivery.ValidDelivery(call.expectedDelivery)
  }

  /** The last step of the budget ends the run unless the step ended it otherwise. */
  predicate EndsBy(s: RuntimeState, t: RuntimeState, events: seq<EventKind>, ends: bool, code: string, first: EventKind) {
    if ends then t.status.Failed? && t.failureCode == code && events == [first, RunFailed]
    else if s.stepNumber + 1 == s.maxSteps then t.status.Failed? && t.failureCode == "step_budget_exhausted" && events == [first, RunFailed]
    else t.status.Running? && t.failureCode == "" && events == [first, RunStatusChanged]
  }

  /** A decision whose tool could not be prepared is turned down exactly when it is in form, names the
      frozen contract and fails coherently; it uses up a step and freezes its contract. */
  lemma RejectToolExactly(s: RuntimeState, f: ToolFailure)
    ensures RejectToolDecision(s, f).Success? <==>
            && CanAdvance(s) && CallInForm(f.call) && FailureCodeShape(Trim(f.errorCode)) && JsonObject(f.output)
            && f.failureClass in {AgentRepairable, TerminalFailure}
            && (s.expectedDelivery.None? || s.expectedDelivery == Some(f.call.expectedDelivery))
    ensures RejectToolDecision(s, f).Success? ==>
              var out := RejectToolDecision(s, f).value; var t := out.state;
              && t == s.(stateVersion := s.stateVersion + 1, stepNumber := s.stepNumber + 1, status := t.status, failureCode := t.failureCode,
                         pendingToolCall := None, pendingToolStarted := false, decisionFeedback := None, verification := None, finalMessage := "",
                         expectedDelivery := Some(f.call.expectedDelivery), lastToolResult := t.lastToolResult)
              && EndsBy(s, t, out.events, f.failureClass == TerminalFailure, Trim(f.errorCode), ToolResulted)
              && out == Transition(t, out.events, rejectedCall := Some(f.call.(toolCallId := Trim(f.call.toolCallId))))
  {
    hide Valid, Trim, Delivery.ValidDelivery;
  }

  /** A call with a used identity is turned down exactly when it is in form; it uses up a step. */
  lemma RejectReusedExactly(s: RuntimeState, call: ToolCall)
    ensures RejectReusedToolIdentity(s, call).Success? <==> CanAdvance(s) && CallInForm(call)
    ensures RejectReusedToolIdentity(s, call).Success? ==>
              var out := RejectReusedToolIdentity(s, call).value; var t := out.state;
              && t == s.(stateVersion := s.stateVersion + 1, stepNumber := s.stepNumber + 1, status := t.status, failureCode := t.failureCode,
                         pendingToolCall := None, pendingToolStarted := false, decisionFeedback := None, verification := None, finalMessage := "",
                         lastToolResult := t.lastToolResult)
              && EndsBy(s, t, out.events, false, "", ToolResulted) && out == Transition(t, out.events)
  {
    hide Valid, Trim, Delivery.ValidDelivery;
  }

  // ---------------------------------------------------------------- the other requests

  /** A malformed decision comes back as feedback exactly with a known code and a reason of at most 240
      bytes; it uses up a step. */
  lemma RejectModelExactly(s: RuntimeState, f: Feedback)
    ensures RejectModelDecision(s, f).Success? <==>
            CanAdvance(s) && f.code != UnknownFeedback && 0 < |Trim(f.reason)| && Utf8Len(Trim(f.reason)) <= 240
    ensures RejectModelDecision(s, f).Success? ==>
              var out := RejectModelDecision(s, f).value; var t := out.state;
              && t == s.(stateVersion := s.stateVersion + 1, stepNumber := s.stepNumber + 1, status := t.status, failureCode := t.failureCode,
                         pendingToolCall := None, pendingToolStarted := false, verification := None, finalMessage := "",
                         decisionFeedback := Some(Feedback(f.code, Trim(f.reason))))
              && EndsBy(s, t, out.events, false, "", ModelRejected) && out == Transition(t, out.events)
  {
    hide Valid, Trim;
  }

  /** The run fails from inside exactly where it could advance, with a code in form. */
  lemma FailExactly(s: RuntimeState, code: string)
    ensures Fail(s, code).Success? <==> CanAdvance(s) && FailureCodeShape(Trim(code))
    ensures Fail(s, code).Success? ==>
              Fail(s, code).value == Transition(
                s.(stateVersion := s.stateVersion + 1, stepNumber := s.stepNumber + 1, status := Failed, pendingToolCall := None,
                   pendingToolStarted := false, verification := None, failureCode := Trim(code)), [RunFailed])
  {
    hide Valid, Trim;
  }

  /** The run fails from outside exactly where it is not over yet, with a code in form; a call still
      pending gets that code as its result. */
  lemma TerminateExactly(s: RuntimeState, code: string)
    ensures Terminate(s, code).Success? <==> Valid(s) && !s.status.Terminal() && FailureCodeShape(Trim(code))
    ensures Terminate(s, code).Success? ==>
              var out := Terminate(s, code).value; var t := out.state;
              && t == s.(stateVersion := s.stateVersion + 1, status := Failed, pendingToolCall := None, pendingToolStarted := false,
                         pendingClarification := None, verification := None, failureCode := Trim(code), lastToolResult := t.lastToolResult)
              && out == Transition(t, if s.pendingToolCall.Some? then [ToolResulted, RunFailed] else [RunFailed])
  {
    hide Valid, Trim;
  }

  /** An interruption is accepted exactly on the version it names while the run is not over; checking
      the state again afterwards never refuses it. It keeps a call that has started, and no other. */
  lemma InterruptExactly(s: RuntimeState, version: int)
    ensures Interrupt(s, version).Success? <==> Valid(s) && !s.status.Terminal() && s.stateVersion == version
    ensures Interrupt(s, version).Success? ==>
              var out := Interrupt(s, version).value;
              && out.state == s.(stateVersion := s.stateVersion + 1, status := Cancelled, pendingSteers := [], pendingClarification := None,
                                 decisionFeedback := None, verification := None, failureCode := "",
                                 pendingToolCall := if s.pendingToolStarted then s.pendingToolCall else None)
              && out == Transition(out.state, [RunInterrupted])
  {
    hide Valid;
    if Valid(s) {
      VersionIsPositive(s);
      if !s.status.Terminal() {
        ValidIsInterruptible(s);
      }
    }
  }

  lemma VersionIsPositive(s: RuntimeState)
    requires Valid(s)
    ensures s.stateVersion >= 1
  {
  }

  /** The first model request is accepted exactly on a queued run and starts it. */
  lemma BeginModelExactly(s: RuntimeState)
    ensures BeginModelRequest(s).Success? <==> Valid(s) && s.status.Queued?
    ensures BeginModelRequest(s).Success? ==>
              BeginModelRequest(s).value == Transition(s.(stateVersion := s.stateVersion + 1, status := Running), [RunStatusChanged])
  {
    if Valid(s) && s.status.Queued? {
      hide ValidFeedback, Delivery.ValidDelivery, ValidUserMessage, ValidConfiguration, ValidLoadedSkillDirs, ValidHistory,
        ValidPendingClarification;
      QuietStepIsValid(s, s.(stateVersion := s.stateVersion + 1, status := Running));
    }
    hide Valid;
  }

  // ---------------------------------------------------------------- steers

  predicate SteerInForm(r: SteerRequest) {
    && 0 < |Trim(r.clientRequestId)| && Utf8Len(Trim(r.clientRequestId)) <= 120
    && 0 < |Trim(r.message)| && Utf8Len(Trim(r.message)) <= 65536
    && r.expectedStateVersion >= 1
  }

  predicate PendsAlready(s: RuntimeState, r: SteerRequest) {
    exists p :: p in s.pendingSteers && p.clientRequestId == Trim(r.clientRequestId)
  }

  lemma OneSteerPerId(s: RuntimeState, p: Steer, q: Steer)
    requires Valid(s) && p in s.pendingSteers && q in s.pendingSteers && p.clientRequestId == q.clientRequestId
    ensures p == q
  {
    hide ValidClarificationState, ValidFeedback, Delivery.ValidDelivery, ValidUserMessage, ValidConfiguration, ValidLoadedSkillDirs, ValidSteer;
    var i :| 0 <= i < |s.pendingSteers| && s.pendingSteers[i] == p;
    var j :| 0 <= j < |s.pendingSteers| && s.pendingSteers[j] == q;
  }

  lemma SteeredIsValid(s: RuntimeState, r: SteerRequest)
    requires Valid(s) && SteerInForm(r) && !PendsAlready(s, r)
    ensures Valid(s.(stateVersion := s.stateVersion + 1, pendingSteers := s.pendingSteers + [Steer(Trim(r.clientRequestId), Trim(r.message))]))
  {
    hide ValidClarificationState, ValidFeedback, Delivery.ValidDelivery, ValidUserMessage, ValidConfiguration, ValidLoadedSkillDirs, Trim, Utf8Len;
    var steer := Steer(Trim(r.clientRequestId), Trim(r.message));
    var t := s.(stateVersion := s.stateVersion + 1, pendingSteers := s.pendingSteers + [steer]);
    SteersAppend(s.pendingSteers, steer);
    SameClarifications(s, t);
  }

  lemma SteersAppend(steers: seq<Steer>, steer: Steer)
    requires ValidPendingSteers(steers) && ValidSteer(steer) && forall p :: p in steers ==> p.clientRequestId != steer.clientRequestId
    ensures ValidPendingSteers(steers + [steer])
  {
    hide ValidSteer;
    var all := steers + [steer];
    forall i, j | 0 <= i < j < |all| ensures all[i].clientRequestId != all[j].clientRequestId {
      assert all[i] == steers[i];
    }
  }

  lemma SameClarifications(s: RuntimeState, t: RuntimeState)
    requires ValidClarificationState(s) && t.status == s.status && t.pendingClarification == s.pendingClarification
    requires t.clarificationHistory == s.clarificationHistory && t.expectedDelivery == s.expectedDelivery
    requires t.pendingToolCall == s.pendingToolCall && t.pendingToolStarted == s.pendingToolStarted
    ensures ValidClarificationState(t)
  {
    hide ValidHistory, ValidPendingClarification;
  }

  /** A steer is accepted exactly in form, and either as the same text again under an id that pends
      already, which changes nothing, or under a new id on the version it names while the run is not
      over; then it goes last. Checking the state again afterwards never refuses it. */
  lemma SteerExactly(s: RuntimeState, r: SteerRequest)
    ensures AppendSteer(s, r).Success? <==>
            && Valid(s) && SteerInForm(r)
            && (if PendsAlready(s, r) then Steer(Trim(r.clientRequestId), Trim(r.message)) in s.pendingSteers
                else !s.status.Terminal() && s.stateVersion == r.expectedStateVersion)
    ensures AppendSteer(s, r).Success? ==>
              AppendSteer(s, r).value ==
              if PendsAlready(s, r) then Transition(s, [], replayed := true)
              else Transition(s.(stateVersion := s.stateVersion + 1,
                                 pendingSteers := s.pendingSteers + [Steer(Trim(r.clientRequestId), Trim(r.message))]), [RunSteered])
    ensures Valid(s) && AppendSteer(s, r).Failure? ==> AppendSteer(s, r).error == SteerConflict
  {
    hide Valid, Trim, Utf8Len;
    if Valid(s) && SteerInForm(r) {
      var found := SteerById(s.pendingSteers, Trim(r.clientRequestId));
      if found.None? {
        SteeredIsValid(s, r);
      } else if Steer(Trim(r.clientRequestId), Trim(r.message)) in s.pendingSteers {
        OneSteerPerId(s, found.value, Steer(Trim(r.clientRequestId), Trim(r.message)));
      }
    }
  }

  predicate NothingPends(s: RuntimeState) {
    s.pendingToolCall.None? && !s.pendingToolStarted && s.pendingClarification.None?
  }

  /** The pending steers are handed over exactly while the model could decide next, all of them and in
      order, and none is left. */
  lemma ConsumeExactly(s: RuntimeState)
    ensures ConsumePendingSteers(s).Success? <==> Valid(s) && s.status in {Queued, Running} && NothingPends(s)
    ensures ConsumePendingSteers(s).Success? ==>
              ConsumePendingSteers(s).value == Transition(s.(pendingSteers := []), [], consumed := s.pendingSteers)
  {
    if Valid(s) && s.status in {Queued, Running} && NothingPends(s) {
      hide ValidFeedback, Delivery.ValidDelivery, ValidUserMessage, ValidConfiguration, ValidLoadedSkillDirs, ValidHistory,
        ValidPendingClarification;
      QuietStepIsValid(s, s.(pendingSteers := []));
    }
    hide Valid;
  }

  // ---------------------------------------------------------------- model decisions

  predicate FinalInForm(f: FinalDecision) {
    0 < |Trim(f.message)| && Utf8Len(Trim(f.message)) <= 32768 && Delivery.ValidDelivery(f.expectedDelivery)
  }

  /** A decision carries exactly the part its kind names, and that part is in form. */
  predicate DecisionInForm(d: ModelDecision) {
    || (d.kind == FinalKind && d.final.Some? && d.toolCall.None? && d.clarification.None? && FinalInForm(d.final.value))
    || (d.kind == ToolCallKind && d.final.None? && d.toolCall.Some? && d.clarification.None? && CallInForm(d.toolCall.value))
    || (d.kind == ClarificationKind && d.final.None? && d.toolCall.None? && d.clarification.Some?
        && C.ValidRequest(C.TrimRequest(d.clarification.value)))
  }

  predicate Conflicts(s: RuntimeState, d: ModelDecision) {
    s.expectedDelivery.Some? && s.expectedDelivery != ContractOf(d)
  }

  /** A decision is accepted exactly where the run can advance, under the current tool schema and in form. */
  lemma AdvanceAcceptsExactly(s: RuntimeState, input: RuntimeInput, toolSchema: int)
    ensures AdvanceForToolSchema(s, input, toolSchema).Success? <==> CanAdvance(s) && toolSchema == 8 && DecisionInForm(input.decision)
  {
    hide Valid, Trim, Delivery.ValidDelivery, C.ValidRequest, AdvanceFinal, AdvanceToolCall, AdvanceClarification, ContractChanged, Cleared;
  }

  /** An external decision must also name the version of a running run. */
  lemma ExternalAcceptsExactly(s: RuntimeState, version: int, input: RuntimeInput)
    ensures AdvanceExternalDecision(s, version, input).Success? <==>
            CanAdvance(s) && s.status.Running? && s.stateVersion == version && DecisionInForm(input.decision)
  {
    hide Valid, AdvanceForToolSchema, DecisionInForm;
    if Valid(s) {
      VersionIsPositive(s);
    }
    AdvanceAcceptsExactly(s, input, CURRENT_TOOL_SCHEMA);
  }

  /** A decision under another contract than the frozen one only costs a step and comes back as feedback. */
  lemma ConflictOutcome(s: RuntimeState, input: RuntimeInput, toolSchema: int, out: Transition)
    requires AdvanceForToolSchema(s, input, toolSchema) == Success(out) && Conflicts(s, input.decision)
    ensures var t := out.state;
            && t == s.(stateVersion := s.stateVersion + 1, stepNumber := s.stepNumber + 1, status := t.status, failureCode := t.failureCode,
                       pendingToolCall := None, pendingToolStarted := false, verification := None, finalMessage := "",
                       decisionFeedback := t.decisionFeedback)
            && t.decisionFeedback.Some? && t.decisionFeedback.value.code == DeliveryContractChanged
            && EndsBy(s, t, out.events, false, "", ModelRejected) && out == Transition(t, out.events)
  {
    hide Valid, Trim, Delivery.ValidDelivery, C.ValidRequest, AdvanceFinal, AdvanceToolCall, AdvanceClarification, ValidCall, ValidFinal;
  }

  /** A decision in line with the contract freezes it and drops what the step before left. */
  predicate Afresh(s: RuntimeState, t: RuntimeState, d: ModelDecision) {
    && t == s.(stateVersion := s.stateVersion + 1, stepNumber := s.stepNumber + 1, expectedDelivery := ContractOf(d),
               lastToolResult := None, pendingToolStarted := false, status := t.status, verification := t.verification,
               decisionFeedback := t.decisionFeedback, finalMessage := t.finalMessage, failureCode := t.failureCode,
               pendingToolCall := t.pendingToolCall, pendingClarification := t.pendingClarification, limits := t.limits)
    && (t.pendingToolCall.Some? ==> t.status in {WaitingApproval, WaitingTool})
    && (t.pendingClarification.Some? <==> t.status.WaitingInput?)
  }

  predicate BudgetSpent(s: RuntimeState, t: RuntimeState, events: seq<EventKind>) {
    t.status.Failed? && t.failureCode == "step_budget_exhausted" && events == [RunFailed]
  }

  /** A question is asked with no answers yet, unless the budget is spent or its identity was completed
      before, which comes back as feedback. */
  lemma QuestionOutcome(s: RuntimeState, input: RuntimeInput, toolSchema: int, out: Transition)
    requires AdvanceForToolSchema(s, input, toolSchema) == Success(out) && !Conflicts(s, input.decision) && input.decision.kind.ClarificationKind?
    ensures var t, request := out.state, C.TrimRequest(input.decision.clarification.value);
            && out == Transition(t, out.events)
            && Afresh(s, t, input.decision) && t.limits == s.limits && t.finalMessage == s.finalMessage && t.verification.None?
            && (if s.stepNumber + 1 == s.maxSteps then BudgetSpent(s, t, out.events) && t.decisionFeedback.None?
                else if CompletedRequest(s.clarificationHistory, request.requestId) then
                  t.status.Running? && t.failureCode == "" && out.events == [ModelRejected, RunStatusChanged]
                  && t.decisionFeedback.Some? && t.decisionFeedback.value.code == ClarificationIdentityReused
                else t.status.WaitingInput? && t.failureCode == "" && t.decisionFeedback.None?
                     && t.pendingClarification == Some(C.Pending(request, [])) && out.events == [ClarificationRequested, RunStatusChanged])
  {
    hide Valid, Trim, Delivery.ValidDelivery, C.ValidRequest, C.TrimRequest, AdvanceFinal, AdvanceToolCall;
  }

  /** A call is issued under the gate of its tool and counted, unless a budget is spent. */
  lemma CallDecisionOutcome(s: RuntimeState, input: RuntimeInput, toolSchema: int, out: Transition)
    requires AdvanceForToolSchema(s, input, toolSchema) == Success(out) && !Conflicts(s, input.decision) && input.decision.kind.ToolCallKind?
    ensures var t, call := out.state, input.decision.toolCall.value;
            var spent := s.limits.Some? && s.limits.value.toolCallsUsed >= s.limits.value.maxToolCalls;
            && out == Transition(t, out.events)
            && Afresh(s, t, input.decision) && t.finalMessage == s.finalMessage && t.verification.None? && t.decisionFeedback.None?
            && (if s.stepNumber + 1 == s.maxSteps then BudgetSpent(s, t, out.events) && t.limits == s.limits
                else if spent then
                  t.status.Failed? && t.failureCode == "tool_call_budget_exhausted" && out.events == [RunFailed] && t.limits == s.limits
                else && t.pendingToolCall == Some(call.(toolCallId := Trim(call.toolCallId))) && t.failureCode == ""
                     && t.status == (if Guarded(call.toolName) then WaitingApproval else WaitingTool)
                     && out.events == (if Guarded(call.toolName) then [ToolCalled, ApprovalRequired, RunStatusChanged]
                                       else [ToolCalled, RunStatusChanged])
                     && t.limits == (if s.limits.None? then None else Some(s.limits.value.(toolCallsUsed := s.limits.value.toolCallsUsed + 1))))
  {
    hide Valid, Trim, Delivery.ValidDelivery, AdvanceFinal, AdvanceClarification, C.ValidRequest, ValidFinal;
  }

  predicate LacksSkill(s: RuntimeState) {
    exists k :: k in s.configuration.skills && k.dir !in s.loadedSkillDirs
  }

  /** A final answer comes back as feedback while a selected skill is not loaded. Otherwise its evidence
      decides: enough of it ends the run with the answer, broken rules end it as failed, and missing
      evidence lets the model go on unless the budget is spent. */
  lemma FinalOutcome(s: RuntimeState, input: RuntimeInput, toolSchema: int, out: Transition)
    requires AdvanceForToolSchema(s, input, toolSchema) == Success(out) && !Conflicts(s, input.decision) && input.decision.kind.FinalKind?
    ensures var t, final := out.state, input.decision.final.value; var verdict := Delivery.Verify(final.expectedDelivery, input.evidence);
            && out == Transition(t, out.events) && Afresh(s, t, input.decision) && t.limits == s.limits && t.pendingToolCall.None?
            && (if LacksSkill(s) then
                  && t.verification.None? && t.finalMessage == ""
                  && t.decisionFeedback.Some? && t.decisionFeedback.value.code == RequiredSkillNotLoaded
                  && EndsBy(s, t, out.events, false, "", ModelRejected)
                else
                  && t.verification == Some(verdict) && t.finalMessage == Trim(final.message) && t.decisionFeedback.None?
                  && match verdict.status
                     case Satisfied => t.status.Succeeded? && t.failureCode == "" && out.events == [AgentMessageCompleted, RunCompleted]
                     case Failed => t.status.Failed? && t.failureCode == "delivery_contract_invalid" && out.events == [RunFailed]
                     case Repairable =>
                       if s.stepNumber + 1 == s.maxSteps then BudgetSpent(s, t, out.events)
                       else t.status.Running? && t.failureCode == "" && out.events == [RunStatusChanged])
  {
    hide Valid, Trim, Delivery.ValidDelivery, Delivery.Verify, AdvanceToolCall, AdvanceClarification, C.ValidRequest, ValidCall, Join, Utf8Len;
  }

  /** The feedback names the missing skills behind a fixed text. */
  lemma FeedbackNamesMissing(s: RuntimeState, input: RuntimeInput, toolSchema: int, out: Transition)
    requires AdvanceForToolSchema(s, input, toolSchema) == Success(out) && !Conflicts(s, input.decision) && input.decision.kind.FinalKind?
    requires LacksSkill(s)
    ensures out.state.decisionFeedback ==
            Some(Feedback(RequiredSkillNotLoaded, MISSING_SKILLS_PREFIX + Join(MissingSkillDirs(s.configuration.skills, s.loadedSkillDirs))))
  {
    hide Valid, Trim, Delivery.ValidDelivery, Delivery.Verify, AdvanceToolCall, AdvanceClarification, C.ValidRequest, ValidCall, Join, Utf8Len;
  }

  /** One more selected skill is missing at the end unless its directory is loaded. */
  lemma MissingNext(skills: seq<Skill>, k: Skill, loaded: seq<string>)
    ensures MissingSkillDirs([], loaded) == []
    ensures MissingSkillDirs(skills + [k], loaded) ==
            MissingSkillDirs(skills, loaded) + (if k.dir in loaded then [] else [k.dir])
  {
    assert (skills + [k])[..|skills|] == skills;
  }

  /** Two lists of parts are joined one after the other with a separator between; one part stands alone. */
  lemma {:induction false} JoinSplits(a: seq<string>, b: seq<string>)
    requires a != [] && b != []
    ensures Join(a + b) == Join(a) + ", " + Join(b)
    ensures forall part :: Join([part]) == part
  {
    var front, last := b[..|b| - 1], b[|b| - 1];
    assert (a + b)[..|a + b| - 1] == a + front && (a + b)[|a + b| - 1] == last;
    if front == [] {
      assert a + front == a && b == [last];
    } else {
      JoinSplits(a, front);
      assert Join(a) + ", " + Join(front) + ", " + last == Join(a) + ", " + (Join(front) + ", " + last);
    }
  }

  // ---------------------------------------------------------------- replays

  /** A replay is accepted exactly for the guarded call the decision would issue, from a named source,
      with a coherent result for it; it stands for the call and its result at once. */
  lemma ReplayExactly(s: RuntimeState, input: RuntimeInput, toolSchema: int, replay: ToolReplay, pending: Transition)
    requires AdvanceForToolSchema(s, input, toolSchema) == Success(pending)
    ensures AdvanceThenReplay(s, input, toolSchema, replay).Success? <==>
            var p, r := pending.state, replay.result;
            && p.status.WaitingApproval? && p.pendingToolCall.Some?
            && replay.call.toolCallId == p.pendingToolCall.value.toolCallId && replay.call.actionVersion == p.pendingToolCall.value.actionVersion
            && replay.call.toolName == p.pendingToolCall.value.toolName
            && replay.call.arguments.canonical == p.pendingToolCall.value.arguments.canonical
            && Trim(replay.sourceRunId) != "" && Trim(replay.sourceToolCallId) != "" && replay.sourceActionVersion >= 1
            && Names(p, r.toolCallId, r.actionVersion) && JsonObject(r.output) && Coherent(r)
    ensures AdvanceThenReplay(s, input, toolSchema, replay).Success? ==>
              var out := AdvanceThenReplay(s, input, toolSchema, replay).value; var p, r := pending.state, replay.result;
              var ends := !r.succeeded && r.failureClass == TerminalFailure;
              && out.state == p.(status := if ends then Failed else Running, pendingToolCall := None,
                                 failureCode := if ends then Trim(r.errorCode) else p.failureCode, lastToolResult := Some(ReportedResult(r)))
              && out == Transition(out.state, [ToolCalled, ToolResulted, if ends then RunFailed else RunStatusChanged], toolReplay := Some(replay))
  {
    hide Valid, Trim, AdvanceForToolSchema;
    DecisionStepsOnce(s, input, toolSchema, pending);
  }

  /** Every decision in line with the contract starts afresh. */
  lemma AfreshOutcome(s: RuntimeState, input: RuntimeInput, toolSchema: int, out: Transition)
    requires AdvanceForToolSchema(s, input, toolSchema) == Success(out) && !Conflicts(s, input.decision)
    ensures Afresh(s, out.state, input.decision) && ToolResulted !in out.events
  {
    hide AdvanceForToolSchema, Afresh;
    AdvanceAcceptsExactly(s, input, toolSchema);
    match input.decision.kind {
      case FinalKind => FinalOutcome(s, input, toolSchema, out);
      case ToolCallKind => CallDecisionOutcome(s, input, toolSchema, out);
      case ClarificationKind => QuestionOutcome(s, input, toolSchema, out);
      case UnknownDecisionKind =>
    }
  }

  lemma DecisionStepsOnce(s: RuntimeState, input: RuntimeInput, toolSchema: int, out: Transition)
    requires AdvanceForToolSchema(s, input, toolSchema) == Success(out)
    ensures CanAdvance(s) && out.state.stateVersion == s.stateVersion + 1 && out.state.stepNumber == s.stepNumber + 1
    ensures out.state.pendingToolStarted == false
  {
    hide AdvanceForToolSchema, Valid;
    AdvanceAcceptsExactly(s, input, toolSchema);
    if Conflicts(s, input.decision) {
      ConflictOutcome(s, input, toolSchema, out);
    } else {
      AfreshOutcome(s, input, toolSchema, out);
    }
  }

  // ---------------------------------------------------------------- answers

  predicate AnswerInForm(a: Submission) {
    && 0 < |Trim(a.requestId)| <= 120 && 0 < |Trim(a.questionId)| <= 120 && a.expectedStateVersion >= 1
  }

  /** The record after an answer: the answer for its question, and for every other one what was there. */
  predicate RecordsAnswer(before: seq<C.Answer>, questionId: string, answer: C.Answer, after: seq<C.Answer>, other: string) {
    && C.AnswerFor(after, questionId) == Some(answer)
    && (other != questionId ==> C.AnswerFor(after, other) == C.AnswerFor(before, other))
  }

  predicate LacksAnswer(request: C.Request, answers: seq<C.Answer>, questionId: string) {
    exists q :: q in request.questions && q.id != questionId && C.AnswerFor(answers, q.id).None?
  }

  /** An accepted answer leaves the question open or ends it. */
  predicate Answered(s: RuntimeState, a: Submission, pending: C.Pending, changed: bool, out: Transition, answers: seq<C.Answer>) {
    var saved := if changed then [ClarificationAnswerSaved] else [];
    if a.complete then
      && out.state == s.(stateVersion := s.stateVersion + 1, status := Running, pendingClarification := None,
                         clarificationHistory := s.clarificationHistory
                           + [C.Completed(pending.request, answers, Trim(a.questionId), a.expectedStateVersion)])
      && out == Transition(out.state, saved + [ClarificationResponded, RunStatusChanged])
    else
      && out.state == s.(stateVersion := s.stateVersion + 1, pendingClarification := Some(C.Pending(pending.request, answers)))
      && out == Transition(out.state, saved)
  }

  /** An answer to a request that was not completed before: the first thing wrong with it is the error;
      the same answer again changes nothing; otherwise it is recorded, and a completing one that leaves
      no question open ends the wait. */
  lemma AnswerExactly(s: RuntimeState, a: Submission) returns (answers: seq<C.Answer>)
    requires Valid(s) && !CompletedRequest(s.clarificationHistory, Trim(a.requestId))
    ensures var r := ApplyClarificationResponse(s, a);
            if !AnswerInForm(a) then r == Failure(AnswerRejected)
            else if s.pendingClarification.None? || s.pendingClarification.value.request.requestId != Trim(a.requestId)
            then r == Failure(ClarificationConflict)
            else
              var pending := s.pendingClarification.value;
              var canonical := C.CanonicalAnswer(pending.request, Trim(a.questionId), a.answer);
              if canonical.Failure? then r == Failure(AnswerRejected)
              else
                var changed := C.AnswerFor(pending.answers, Trim(a.questionId)) != Some(canonical.value);
                if !a.complete && !changed then r == Success(Transition(s, [], replayed := true))
                else if a.expectedStateVersion != s.stateVersion then r == Failure(VersionConflict)
                else if a.complete && LacksAnswer(pending.request, pending.answers, Trim(a.questionId)) then r == Failure(ClarificationIncomplete)
                else
                  && r.Success? && Answered(s, a, pending, changed, r.value, answers)
                  && forall other :: RecordsAnswer(pending.answers, Trim(a.questionId), canonical.value, answers, other)
  {
    hide Valid, Trim, C.CanonicalAnswer, C.AnswerFor, C.Upsert, C.Complete, C.ValidRecord, RecordsAnswer;
    PendingIsWaitedFor(s);
    answers := [];
    if s.pendingClarification.Some? {
      var pending := s.pendingClarification.value;
      var canonical := C.CanonicalAnswer(pending.request, Trim(a.questionId), a.answer);
      if canonical.Success? {
        answers := C.Upsert(pending.request, pending.answers, canonical.value);
        AnswerJoins(pending, Trim(a.questionId), a.answer);
      }
    }
  }

  lemma PendingIsWaitedFor(s: RuntimeState)
    requires Valid(s)
    ensures s.status.WaitingInput? <==> s.pendingClarification.Some?
    ensures s.pendingClarification.Some? ==> C.ValidRecord(s.pendingClarification.value.request, s.pendingClarification.value.answers, false)
  {
    hide ValidPendingSteers, ValidFeedback, Delivery.ValidDelivery, ValidUserMessage, ValidConfiguration, ValidLoadedSkillDirs, C.ValidRecord,
      ValidHistory;
  }

  lemma AnswerJoins(pending: C.Pending, questionId: string, input: C.AnswerInput)
    requires C.ValidRecord(pending.request, pending.answers, false) && C.CanonicalAnswer(pending.request, questionId, input).Success?
    ensures var answer := C.CanonicalAnswer(pending.request, questionId, input).value;
            var answers := C.Upsert(pending.request, pending.answers, answer);
            && (forall other :: RecordsAnswer(pending.answers, questionId, answer, answers, other))
            && (C.Complete(pending.request, answers) <==> !LacksAnswer(pending.request, pending.answers, questionId))
  {
    C.CanonicalAnswerIdempotent(pending.request, questionId, input);
    hide C.CanonicalAnswer, C.AnswerFor, C.Upsert, C.Complete, C.ValidRecord;
    C.UpsertThenLookup(pending.request, pending.answers, C.CanonicalAnswer(pending.request, questionId, input).value);
  }

  // ---------------------------------------------------------------- the tool result after every step

  lemma AdvanceResult(s: RuntimeState, op: Op, input: RuntimeInput, toolSchema: int, out: Transition)
    requires op == Advance(input, toolSchema) || (exists v :: op == AdvanceExternal(v, input))
    requires AdvanceForToolSchema(s, input, toolSchema) == Success(out)
    ensures ResultFacts(s, op, out)
  {
    hide AdvanceForToolSchema, Valid, Trim;
    if Conflicts(s, input.decision) {
      ConflictOutcome(s, input, toolSchema, out);
    } else {
      AfreshOutcome(s, input, toolSchema, out);
    }
  }

  lemma AnswerResult(s: RuntimeState, submission: Submission, out: Transition)
    requires ApplyClarificationResponse(s, submission) == Success(out)
    ensures ResultFacts(s, Clarify(submission), out)
  {
    hide ApplyClarificationResponse, Trim;
    AnswersHaveShape(s, submission, out);
  }

  /** The requests that concern no tool leave the result alone. */
  lemma OtherResults(s: RuntimeState, op: Op, out: Transition)
    requires Apply(s, op) == Success(out)
    requires op.RejectModel? || op.BeginTool? || op.SteerRun? || op.ConsumeSteers? || op.InterruptRun? || op.FailRun? || op.BeginModel?
    ensures ResultFacts(s, op, out)
  {
    hide Valid, Trim, ValidFeedback, ValidFailureCode;
  }

  /** What every accepted step does to the last tool result. */
  lemma ResultExactly(s: RuntimeState, op: Op, out: Transition)
    requires Apply(s, op) == Success(out)
    ensures ResultFacts(s, op, out)
  {
    hide ResultFacts, AdvanceForToolSchema, AdvanceThenReplay, RejectModelDecision, RejectReusedToolIdentity, RejectToolDecision,
      ResolveTool, BeginToolExecution, ReviewToolApproval, InvalidateToolApproval, ApplyClarificationResponse, AppendSteer,
      ConsumePendingSteers, Interrupt, Terminate, Fail, ExpireRuntimeAt, BeginModelRequest, AdvanceExternalDecision;
    match op {
      case Advance(input, toolSchema) => AdvanceResult(s, op, input, toolSchema, out);
      case AdvanceExternal(version, input) =>
        ExternalIsAdvance(s, version, input);
        AdvanceResult(s, op, input, CURRENT_TOOL_SCHEMA, out);
      case Resolve(r) => ResolveResult(s, r, out);
      case Replay(input, toolSchema, replay) => ReplayResult(s, input, toolSchema, replay, out);
      case RejectTool(failure) => RejectToolResult(s, failure, out);
      case RejectReused(call) => RejectReusedResult(s, call, out);
      case Review(a) => ReviewResult(s, a, out);
      case Invalidate(i) => InvalidateResult(s, i, out);
      case TerminateRun(code) => TerminateResult(s, code, out);
      case Expire(now) => ExpireResult(s, now, out);
      case Clarify(submission) => AnswerResult(s, submission, out);
      case _ => OtherResults(s, op, out);
    }
  }
}
