/** The theorems about runs, each for every run whatever the requests in it. */
module RuntimeTheorems {
  import opened Text
  import opened Ordering
  import opened Runtime
  import opened RuntimeSteps
  import opened RuntimeRuns
  import Delivery
  import C = Clarification

  lemma StepOfRun(init: RuntimeState, run: seq<Step>, i: nat)
    requires IsRun(init, run) && i < |run|
    ensures StepFacts(StateAt(init, run, i), run[i].op, run[i].out)
    ensures StateAt(init, run, i + 1) == run[i].out.state
    ensures Valid(StateAt(init, run, i))
    ensures Valid(StateAt(init, run, i + 1)) <==> !Overflows(StateAt(init, run, i), run[i].op)
  {
    hide Apply, StepFacts, Valid, Overflows;
    AcceptedStep(StateAt(init, run, i), run[i].op);
    StepKeepsValid(StateAt(init, run, i), run[i].op);
  }

  // The facts of one step of a run, one at a time.

  lemma FactsAt(init: RuntimeState, run: seq<Step>, i: nat)
    requires IsRun(init, run) && i < |run|
    ensures StepFacts(StateAt(init, run, i), run[i].op, run[i].out)
    ensures StateAt(init, run, i + 1) == run[i].out.state
  {
    hide Apply, StepFacts, Initial;
    AcceptedStep(StateAt(init, run, i), run[i].op);
  }

  lemma GrowsAt(init: RuntimeState, run: seq<Step>, i: nat)
    requires IsRun(init, run) && i < |run|
    ensures Grows(StateAt(init, run, i), StateAt(init, run, i + 1))
  {
    hide IsRun, Grows, Live, Idle, Measure, ToolFacts, ApprovalFacts, SteerFacts, SuccessFacts, LoadFacts;
    FactsAt(init, run, i);
  }

  lemma MeasureAt(init: RuntimeState, run: seq<Step>, i: nat)
    requires IsRun(init, run) && i < |run|
    ensures Live(StateAt(init, run, i)) ==> Live(StateAt(init, run, i + 1))
    ensures if Idle(StateAt(init, run, i), run[i].op, run[i].out)
            then Measure(StateAt(init, run, i + 1)) == Measure(StateAt(init, run, i))
            else Measure(StateAt(init, run, i + 1)) < Measure(StateAt(init, run, i))
  {
    hide IsRun, Grows, Live, Idle, Measure, ToolFacts, ApprovalFacts, SteerFacts, SuccessFacts, LoadFacts;
    FactsAt(init, run, i);
  }

  lemma ToolFactsAt(init: RuntimeState, run: seq<Step>, i: nat)
    requires IsRun(init, run) && i < |run|
    ensures ToolFacts(StateAt(init, run, i), run[i].op, run[i].out)
    ensures ApprovalFacts(StateAt(init, run, i), run[i].op, run[i].out)
  {
    hide IsRun, Grows, Live, Idle, Measure, ToolFacts, ApprovalFacts, SteerFacts, SuccessFacts, LoadFacts;
    FactsAt(init, run, i);
  }

  lemma SteerFactsAt(init: RuntimeState, run: seq<Step>, i: nat)
    requires IsRun(init, run) && i < |run|
    ensures SteerFacts(StateAt(init, run, i), run[i].op, run[i].out)
  {
    hide IsRun, Grows, Live, Idle, Measure, ToolFacts, ApprovalFacts, SteerFacts, SuccessFacts, LoadFacts;
    FactsAt(init, run, i);
  }

  lemma DeliveryFactsAt(init: RuntimeState, run: seq<Step>, i: nat)
    requires IsRun(init, run) && i < |run|
    ensures SuccessFacts(StateAt(init, run, i), run[i].op, run[i].out)
    ensures LoadFacts(StateAt(init, run, i), run[i].op, run[i].out)
  {
    hide IsRun, Grows, Live, Idle, Measure, ToolFacts, ApprovalFacts, SteerFacts, SuccessFacts, LoadFacts;
    FactsAt(init, run, i);
  }

  lemma StartsEmpty(init: RuntimeState, run: seq<Step>)
    requires IsRun(init, run)
    ensures init.status.Queued? && init.pendingToolCall.None? && init.loadedSkillDirs == [] && Valid(init)
  {
    hide Valid, Apply;
  }

  lemma PrefixIsRun(init: RuntimeState, run: seq<Step>, n: nat)
    requires IsRun(init, run) && n <= |run|
    ensures IsRun(init, run[..n])
    ensures forall i :: 0 <= i <= n ==> StateAt(init, run[..n], i) == StateAt(init, run, i)
  {
    hide Apply, Initial;
    forall i | 0 <= i < n ensures Apply(StateAt(init, run[..n], i), run[..n][i].op) == Success(run[..n][i].out) {
      assert StateAt(init, run[..n], i) == StateAt(init, run, i);
    }
  }

  // ---------------------------------------------------------------- validity and being stuck

  /** Along a run every state but the last is valid, and the last one is too unless the last
      step was the overflowing one. */
  lemma RunsStayValid(init: RuntimeState, run: seq<Step>)
    requires IsRun(init, run)
    ensures forall i :: 0 <= i < |run| ==> Valid(StateAt(init, run, i))
    ensures Valid(StateAt(init, run, |run|)) <==>
            run == [] || !Overflows(StateAt(init, run, |run| - 1), run[|run| - 1].op)
  {
    hide Apply, Valid, Overflows;
    assert Valid(init) by { hide Valid; }
    forall i | 0 <= i < |run| ensures Valid(StateAt(init, run, i)) {
      StepOfRun(init, run, i);
    }
    if run != [] {
      StepOfRun(init, run, |run| - 1);
    }
  }

  /** A state of a live run moves on exactly when it is valid: then it can at least be interrupted,
      otherwise every transition is refused. */
  lemma MovesIffValid(s: RuntimeState)
    requires !s.status.Terminal()
    ensures Valid(s) ==> Apply(s, InterruptRun(s.stateVersion)).Success?
    ensures Valid(s) <==> exists op :: Apply(s, op).Success?
  {
    hide Valid, Interrupt;
    if Valid(s) {
      ValidIsInterruptible(s);
    }
    forall op | Apply(s, op).Success? ensures Valid(s) {
      OnlyFromValid(s, op);
    }
  }

  const ANSWER_CONTRACT := Delivery.ExpectedDelivery(Delivery.Answer, [], "", [Delivery.Criterion(Delivery.FinalMessage, Delivery.NoArtifact)])

  /** A fresh run that selects two skills, named a and b. */
  function TwoSkills(a: string, b: string, message: string): RuntimeState {
    RuntimeState(1, 0, 2, Queued, None, None, None, false, None, [], None, None, "", "", message,
                 Configuration([Skill(a, 1, "", ""), Skill(b, 1, "", "")], Automatic, true), [], [], None)
  }

  function FinalAnswer(message: string): RuntimeInput {
    RuntimeInput(ModelDecision(FinalKind, Some(FinalDecision(message, ANSWER_CONTRACT)), None, None),
                 Delivery.Evidence(message, "", 0, false, []))
  }

  predicate PlainText(s: string) {
    s != "" && Trimmed(s) && Utf8Len(s) <= IDENTITY_LIMIT
  }

  lemma AnswerContractIsValid()
    ensures Delivery.ValidDelivery(ANSWER_CONTRACT)
  {
    var c := Delivery.Criterion(Delivery.FinalMessage, Delivery.NoArtifact);
    assert c in ANSWER_CONTRACT.completionCriteria;
    assert Trim("") == "";
  }

  lemma TwoSkillsIsInitial(a: string, b: string, message: string)
    requires PlainText(a) && PlainText(b) && Less(a, b) && PlainText(message)
    ensures Initial(TwoSkills(a, b, message))
  {
    hide Utf8Len, Trimmed, Less;
    var skills := TwoSkills(a, b, message).configuration.skills;
    assert Trim(message) == message;
    assert forall k :: k in skills ==> k.dir == a || k.dir == b;
  }

  lemma MissingBoth(a: string, b: string)
    ensures MissingSkillDirs(TwoSkills(a, b, "").configuration.skills, []) == [a, b]
    ensures FeedbackLength([a, b]) == PREFIX_LENGTH + Utf8Len(a) + Utf8Len(b) + 2
  {
    hide Utf8Len;
    var first, both := [Skill(a, 1, "", "")], TwoSkills(a, b, "").configuration.skills;
    assert both[..1] == first && first[..0] == [];
    assert MissingSkillDirs(first, []) == MissingSkillDirs(first[..0], []) + [a];
    assert [a, b][..1] == [a] && [a][..0] == [];
    assert TotalLength([a]) == TotalLength([a][..0]) + Utf8Len(a);
    assert TotalLength([a, b]) == TotalLength([a]) + Utf8Len(b);
  }

  /** Two skills whose names do not fit in one feedback: the run stays live and refuses everything. */
  lemma StuckAfterFinalAnswer(a: string, b: string, message: string) returns (init: RuntimeState, run: seq<Step>)
    requires PlainText(a) && PlainText(b) && Less(a, b) && PlainText(message)
    requires Utf8Len(a) + Utf8Len(b) > FEEDBACK_LIMIT - PREFIX_LENGTH - 2
    ensures IsRun(init, run) && |run| == 1
    ensures StateAt(init, run, 1).status.Running?
    ensures forall op :: Apply(StateAt(init, run, 1), op).Failure?
  {
    hide Valid, Delivery.ValidDelivery, FeedbackLength, MissingSkillDirs, MissingSkillsFeedback, Less, Trimmed, Utf8Len,
      Delivery.Verify;
    init := TwoSkills(a, b, message);
    TwoSkillsIsInitial(a, b, message);
    MissingBoth(a, b);
    AnswerContractIsValid();
    assert Trim(message) == message;
    var op := Advance(FinalAnswer(message), CURRENT_TOOL_SCHEMA);
    assert ValidDecision(FinalAnswer(message).decision, CURRENT_TOOL_SCHEMA);
    var out := Apply(init, op).value;
    assert Overflows(init, op) && out.state.status.Running?;
    hide Overflows, AdvanceForToolSchema;
    StepKeepsValid(init, op);
    MovesIffValid(out.state);
    run := [Step(op, out)];
  }

  lemma Repeated(c: char)
    requires c == 'a' || c == 'b'
    ensures var s := seq(120, _ => c);
            PlainText(s) && Utf8Len(s) == 120
  {
    var s: string := seq(120, _ => c);
    AsciiLen(s);
  }

  /** Such a run exists within every limit: names of 120 bytes are allowed. */
  lemma StuckRunExists() returns (init: RuntimeState, run: seq<Step>)
    ensures IsRun(init, run) && !StateAt(init, run, |run|).status.Terminal()
    ensures forall op :: Apply(StateAt(init, run, |run|), op).Failure?
  {
    var a, b := seq(120, _ => 'a'), seq(120, _ => 'b');
    Repeated('a');
    Repeated('b');
    assert Less(a, b);
    assert PlainText("a") by {
      AsciiLen("a");
    }
    hide IsRun, Apply, PlainText, Less, Utf8Len;
    init, run := StuckAfterFinalAnswer(a, b, "a");
  }

  /** With at most one selected skill the feedback always fits. */
  lemma OneSkillNeverOverflows(s: RuntimeState, op: Op)
    requires Valid(s) && |s.configuration.skills| <= 1
    ensures !Overflows(s, op)
  {
    hide ValidClarificationState, ValidPendingSteers, ValidFeedback, Delivery.ValidDelivery, ValidUserMessage, Less, Trimmed,
      Utf8Len, ConflictsWithContract;
    var skills := s.configuration.skills;
    var missing := MissingSkillDirs(skills, s.loadedSkillDirs);
    if missing != [] {
      assert skills[..|skills| - 1] == [];
      assert MissingSkillDirs([], s.loadedSkillDirs) == [];
      assert missing == [skills[0].dir];
      assert missing[..0] == [] && skills[0] in skills;
      assert TotalLength(missing) == TotalLength(missing[..0]) + Utf8Len(missing[0]);
    }
  }

  // ---------------------------------------------------------------- budget and termination

  lemma StartsLive(init: RuntimeState, run: seq<Step>)
    requires IsRun(init, run)
    ensures Live(init) && init.stepNumber <= init.maxSteps
  {
    hide Apply, Valid;
    BoundaryOf(init);
  }

  lemma {:induction false} RunIsLive(init: RuntimeState, run: seq<Step>, n: nat)
    requires IsRun(init, run) && n <= |run|
    ensures Live(StateAt(init, run, n))
    ensures StateAt(init, run, n).stepNumber <= StateAt(init, run, n).maxSteps
  {
    hide IsRun, Measure, Idle;
    if n == 0 {
      StartsLive(init, run);
    } else {
      RunIsLive(init, run, n - 1);
      MeasureAt(init, run, n - 1);
      GrowsAt(init, run, n - 1);
      hide Live;
    }
  }

  lemma BoundaryOf(s: RuntimeState)
    requires Valid(s)
    ensures ValidBoundary(s)
    ensures s.limits.Some? ==> ValidLimits(s.limits.value)
  {
    hide ValidClarificationState, ValidPendingSteers, ValidFeedback, Delivery.ValidDelivery, ValidUserMessage, ValidConfiguration;
  }

  lemma ResolvesInBudget(s: RuntimeState, r: ToolResolution)
    requires Live(s)
    ensures ResolveTool(s, r).Success? ==>
              ResolveTool(s, r).value.state.status == if !r.succeeded && r.failureClass.TerminalFailure? then Failed else Running
  {
    hide Valid, Trim, ValidOutput, ConsistentResolution, AddLoadedSkillDir, Identifies;
  }

  lemma ReviewsInBudget(s: RuntimeState, a: ToolApproval)
    requires Live(s)
    ensures ReviewToolApproval(s, a).Success? ==>
              ReviewToolApproval(s, a).value.state.status == if a.decision.Approve? then WaitingTool else Running
  {
    hide Valid, Trim, SyntheticResult, Identifies;
  }

  lemma InvalidatesInBudget(s: RuntimeState, i: ToolApprovalInvalidation)
    requires Live(s)
    ensures InvalidateToolApproval(s, i).Success? ==> InvalidateToolApproval(s, i).value.state.status.Running?
  {
    hide Valid, Trim, SyntheticResult, Identifies;
  }

  /** In a live run the step budget never decides the fate of a tool: only a terminal failure of
      the tool itself does. */
  lemma ToolsNeverExhaustTheBudget(init: RuntimeState, run: seq<Step>, r: ToolResolution, a: ToolApproval, i: ToolApprovalInvalidation)
    requires IsRun(init, run)
    ensures var s := StateAt(init, run, |run|);
            && (ResolveTool(s, r).Success? ==>
                 (ResolveTool(s, r).value.state.status == if !r.succeeded && r.failureClass.TerminalFailure? then Failed else Running))
            && (ReviewToolApproval(s, a).Success? ==>
                 (ReviewToolApproval(s, a).value.state.status == if a.decision.Approve? then WaitingTool else Running))
            && (InvalidateToolApproval(s, i).Success? ==> InvalidateToolApproval(s, i).value.state.status.Running?)
  {
    hide IsRun, Live, ResolveTool, ReviewToolApproval, InvalidateToolApproval;
    RunIsLive(init, run, |run|);
    var s := StateAt(init, run, |run|);
    ResolvesInBudget(s, r);
    ReviewsInBudget(s, a);
    InvalidatesInBudget(s, i);
  }

  /** The steps among the first n that are more than steering, partial answers or repeats. */
  function ProgressSteps(init: RuntimeState, run: seq<Step>, n: nat): nat
    requires n <= |run|
  {
    if n == 0 then 0
    else
      ProgressSteps(init, run, n - 1) +
      (if Idle(StateAt(init, run, n - 1), run[n - 1].op, run[n - 1].out) then 0 else 1)
  }

  lemma {:induction false} ProgressUsesMeasure(init: RuntimeState, run: seq<Step>, n: nat)
    requires IsRun(init, run) && n <= |run|
    ensures ProgressSteps(init, run, n) + Measure(StateAt(init, run, n)) <= Measure(init)
  {
    hide IsRun, Idle, Measure, Live;
    if n > 0 {
      ProgressUsesMeasure(init, run, n - 1);
      MeasureAt(init, run, n - 1);
    }
  }

  /** No run, however long, holds more progress than four steps for each model step and two. */
  lemma ProgressIsBounded(init: RuntimeState, run: seq<Step>)
    requires IsRun(init, run)
    ensures ProgressSteps(init, run, |run|) <= 4 * init.maxSteps + 2 <= 4 * MAX_RUNTIME_STEPS + 2
  {
    hide Apply, Valid, Idle;
    BoundaryOf(init);
    ProgressUsesMeasure(init, run, |run|);
    RunIsLive(init, run, |run|);
  }

  lemma RunTerminal(init: RuntimeState, run: seq<Step>, i: nat)
    requires IsRun(init, run) && i < |run| && StateAt(init, run, i).status.Terminal()
    ensures StateAt(init, run, i + 1) == StateAt(init, run, i)
    ensures run[i].out.events == [] && run[i].out.consumed == []
  {
    hide Apply, Initial;
    TerminalIsAbsorbing(StateAt(init, run, i), run[i].op);
  }

  /** Once terminal, a run stays exactly as it is. */
  lemma {:induction false} TerminalForever(init: RuntimeState, run: seq<Step>, m: nat, n: nat)
    requires IsRun(init, run) && m <= n <= |run| && StateAt(init, run, m).status.Terminal()
    ensures StateAt(init, run, n) == StateAt(init, run, m)
    ensures forall k :: m <= k < n ==> run[k].out.events == [] && run[k].out.consumed == []
  {
    hide IsRun;
    if m < n {
      TerminalForever(init, run, m, n - 1);
      RunTerminal(init, run, n - 1);
    }
  }

  // ---------------------------------------------------------------- tool events

  /** The tool events of a run with their identities, in order. */
  function Trace(run: seq<Step>): seq<ToolEvent> {
    if run == [] then [] else Trace(run[..|run| - 1]) + ToolEvents(run[|run| - 1].out)
  }

  function Calls(trace: seq<ToolEvent>): nat {
    if trace == [] then 0 else Calls(trace[..|trace| - 1]) + (if trace[|trace| - 1].Called? then 1 else 0)
  }

  /** Every call is followed at once by its own result, unless nothing follows. */
  predicate Bracketed(trace: seq<ToolEvent>) {
    forall k :: 0 <= k < |trace| - 1 && trace[k].Called? ==>
      trace[k + 1] == Resulted(trace[k].toolCallId, trace[k].actionVersion)
  }

  predicate EndsOpen(trace: seq<ToolEvent>) {
    trace != [] && trace[|trace| - 1].Called?
  }

  /** The open call at the end of a trace is the pending call of the state. */
  predicate TraceMatches(s: RuntimeState, trace: seq<ToolEvent>) {
    && Bracketed(trace)
    && (!s.status.Terminal() ==>
         (EndsOpen(trace) <==> s.pendingToolCall.Some?) &&
         (s.pendingToolCall.Some? && EndsOpen(trace) ==> trace[|trace| - 1] == CallEvent(s.pendingToolCall.value)))
    && (EndsOpen(trace) && s.status.Terminal() ==> s.status.Cancelled?)
    && (s.limits.Some? ==> Calls(trace) == UsedCalls(s))
  }

  lemma CallsAppend(trace: seq<ToolEvent>, e: ToolEvent)
    ensures Calls(trace + [e]) == Calls(trace) + (if e.Called? then 1 else 0)
  {
    assert (trace + [e])[..|trace|] == trace;
  }

  lemma OpenedTrace(trace: seq<ToolEvent>, call: ToolCall)
    requires Bracketed(trace) && !EndsOpen(trace)
    ensures Bracketed(trace + [CallEvent(call)]) && EndsOpen(trace + [CallEvent(call)])
    ensures Calls(trace + [CallEvent(call)]) == Calls(trace) + 1
  {
    CallsAppend(trace, CallEvent(call));
  }

  lemma ClosedTrace(trace: seq<ToolEvent>, result: ToolEvent)
    requires Bracketed(trace) && result.Resulted?
    requires EndsOpen(trace) ==> result == Resulted(trace[|trace| - 1].toolCallId, trace[|trace| - 1].actionVersion)
    ensures Bracketed(trace + [result]) && !EndsOpen(trace + [result])
    ensures Calls(trace + [result]) == Calls(trace)
  {
    CallsAppend(trace, result);
  }

  lemma TraceStep(s: RuntimeState, op: Op, out: Transition, trace: seq<ToolEvent>)
    requires TraceMatches(s, trace) && Live(s) && ToolFacts(s, op, out) && Live(out.state)
    requires (out.state.limits.Some? <==> s.limits.Some?) && !s.status.Terminal()
    ensures TraceMatches(out.state, trace + ToolEvents(out))
  {
    hide Risky, TrimCall, ToolEvents, Bracketed, Calls;
    var events := ToolEvents(out);
    if Silent(s, out) {
      assert trace + events == trace;
    } else if Issues(s, op, out) {
      hide Settles, IssuesAndSettles, Silent;
      OpenedTrace(trace, out.state.pendingToolCall.value);
    } else if Settles(s, out) {
      hide Issues, IssuesAndSettles, Silent;
      ClosedTrace(trace, events[0]);
      assert events == [events[0]];
    } else {
      hide Issues, Settles, Silent;
      var call := out.toolReplay.value.call;
      OpenedTrace(trace, call);
      assert (trace + [CallEvent(call)])[|trace|] == CallEvent(call);
      ClosedTrace(trace + [CallEvent(call)], ResultEvent(call));
      assert trace + events == trace + [CallEvent(call)] + [ResultEvent(call)];
    }
  }

  lemma EmptyTraceMatches(init: RuntimeState)
    requires Initial(init)
    ensures TraceMatches(init, [])
  {
    hide Valid;
  }

  lemma {:induction false} TraceFollowsRun(init: RuntimeState, run: seq<Step>)
    requires IsRun(init, run)
    ensures TraceMatches(StateAt(init, run, |run|), Trace(run))
  {
    hide Apply, Valid, ToolFacts, TraceMatches;
    if run == [] {
      EmptyTraceMatches(init);
    } else {
      var n := |run| - 1;
      PrefixIsRun(init, run, n);
      TraceFollowsRun(init, run[..n]);
      StepOfRun(init, run, n);
      RunIsLive(init, run, n);
      RunIsLive(init, run, n + 1);
      var s, out := StateAt(init, run, n), run[n].out;
      if s.status.Terminal() {
        TerminalIsAbsorbing(s, run[n].op);
        assert Trace(run) == Trace(run[..n]);
      } else {
        TraceStep(s, run[n].op, out, Trace(run[..n]));
      }
    }
  }

  /** Tool calls never overlap: between two of them stands the result of the first, and a run ends
      with a call unanswered only when it was interrupted. */
  lemma ToolCallsAreBracketed(init: RuntimeState, run: seq<Step>)
    requires IsRun(init, run)
    ensures var trace := Trace(run);
            && (forall a, b :: 0 <= a < b < |trace| && trace[a].Called? && trace[b].Called? ==>
                 a + 1 < b && trace[a + 1] == Resulted(trace[a].toolCallId, trace[a].actionVersion))
            && (EndsOpen(trace) ==> !StateAt(init, run, |run|).status.Succeeded? && !StateAt(init, run, |run|).status.Failed?)
            && (EndsOpen(trace) && !StateAt(init, run, |run|).status.Terminal() ==>
                 StateAt(init, run, |run|).pendingToolCall.Some? &&
                 trace[|trace| - 1] == CallEvent(StateAt(init, run, |run|).pendingToolCall.value))
  {
    hide IsRun, Trace;
    TraceFollowsRun(init, run);
    var trace := Trace(run);
    forall a, b | 0 <= a < b < |trace| && trace[a].Called? && trace[b].Called?
      ensures a + 1 < b && trace[a + 1] == Resulted(trace[a].toolCallId, trace[a].actionVersion)
    {
      assert trace[a + 1].Resulted?;
    }
  }

  lemma CancelStep(s: RuntimeState, op: Op, out: Transition)
    requires SteerFacts(s, op, out) && out.state.status.Cancelled? && !s.status.Cancelled?
    ensures op.InterruptRun?
  {
    hide AcceptedSteer;
  }

  /** Only an interruption cancels a run. */
  lemma {:induction false} CancelledByInterrupt(init: RuntimeState, run: seq<Step>, n: nat) returns (k: nat)
    requires IsRun(init, run) && n <= |run| && StateAt(init, run, n).status.Cancelled?
    ensures k < n && run[k].op.InterruptRun? && !StateAt(init, run, k).status.Cancelled?
  {
    hide IsRun, SteerFacts, Valid;
    StartsEmpty(init, run);
    if StateAt(init, run, n - 1).status.Cancelled? {
      k := CancelledByInterrupt(init, run, n - 1);
    } else {
      k := n - 1;
      SteerFactsAt(init, run, k);
      CancelStep(StateAt(init, run, k), run[k].op, run[k].out);
    }
  }

  lemma {:induction false} LimitsStay(init: RuntimeState, run: seq<Step>, n: nat)
    requires IsRun(init, run) && n <= |run|
    ensures var s := StateAt(init, run, n);
            && (s.limits.Some? <==> init.limits.Some?)
            && (s.limits.Some? ==>
                 && s.limits.value.maxToolCalls == init.limits.value.maxToolCalls
                 && s.limits.value.deadlineAt == init.limits.value.deadlineAt
                 && s.limits.value.toolCallsUsed <= s.limits.value.maxToolCalls)
  {
    hide IsRun, Valid;
    StartsEmpty(init, run);
    if n == 0 {
      BoundaryOf(init);
    } else {
      LimitsStay(init, run, n - 1);
      GrowsAt(init, run, n - 1);
    }
  }

  /** The budget counts exactly the tool calls made, replayed ones once, and is never exceeded. */
  lemma ToolCallsAreCounted(init: RuntimeState, run: seq<Step>)
    requires IsRun(init, run) && init.limits.Some?
    ensures var s := StateAt(init, run, |run|);
            s.limits.Some? && Calls(Trace(run)) == s.limits.value.toolCallsUsed <= init.limits.value.maxToolCalls
  {
    hide IsRun, Trace;
    TraceFollowsRun(init, run);
    LimitsStay(init, run, |run|);
  }

  // ---------------------------------------------------------------- approvals

  predicate IssuedBy(op: Op, out: Transition) {
    && ToolCalled in out.events && out.state.pendingToolCall.Some?
    && DecisionOf(op).Some? && DecisionOf(op).value.toolCall.Some?
    && out.state.pendingToolCall.value == TrimCall(DecisionOf(op).value.toolCall.value)
  }

  lemma PendingStep(s: RuntimeState, op: Op, out: Transition)
    requires ToolFacts(s, op, out) && out.state.pendingToolCall.Some?
    ensures IssuedBy(op, out) || (s.pendingToolCall == out.state.pendingToolCall && ToolCalled !in out.events)
  {
    hide TrimCall, Risky;
    if Issues(s, op, out) {
      assert ToolEvents(out)[0].Called?;
    }
  }

  /** The step that issued the call pending after n steps; it is pending ever since, unchanged. */
  lemma {:induction false} CallOrigin(init: RuntimeState, run: seq<Step>, n: nat) returns (i: nat)
    requires IsRun(init, run) && n <= |run|
    requires !StateAt(init, run, n).status.Terminal() && StateAt(init, run, n).pendingToolCall.Some?
    ensures i < n && IssuedBy(run[i].op, run[i].out)
    ensures forall m :: i < m <= n ==> StateAt(init, run, m).pendingToolCall == StateAt(init, run, n).pendingToolCall
    ensures forall m :: i < m < n ==> ToolCalled !in run[m].out.events
  {
    hide IsRun, IssuedBy, ToolFacts, ApprovalFacts, Valid;
    StartsEmpty(init, run);
    i := n - 1;
    var s := StateAt(init, run, i);
    if s.status.Terminal() {
      RunTerminal(init, run, i);
    }
    ToolFactsAt(init, run, i);
    PendingStep(s, run[i].op, run[i].out);
    if !IssuedBy(run[i].op, run[i].out) {
      i := CallOrigin(init, run, n - 1);
    }
  }

  /** A risky call is executable only after it was, or by being approved now. */
  lemma RiskyWaitStep(s: RuntimeState, op: Op, out: Transition)
    requires ToolFacts(s, op, out) && ApprovalFacts(s, op, out)
    requires out.state.status.WaitingTool? && out.state.pendingToolCall.Some? && Risky(out.state.pendingToolCall.value)
    ensures s.pendingToolCall == out.state.pendingToolCall
    ensures s.status.WaitingTool? || Approves(op, out.state.pendingToolCall.value)
  {
    hide Risky, Approves, TrimCall;
  }

  /** A risky call that may be executed was approved by its own identity after it was issued. */
  lemma {:induction false} ApprovalOrigin(init: RuntimeState, run: seq<Step>, n: nat) returns (j: nat)
    requires IsRun(init, run) && n <= |run|
    requires StateAt(init, run, n).status.WaitingTool? && StateAt(init, run, n).pendingToolCall.Some?
    requires Risky(StateAt(init, run, n).pendingToolCall.value)
    ensures j < n && Approves(run[j].op, StateAt(init, run, n).pendingToolCall.value)
    ensures forall m :: j <= m <= n ==> StateAt(init, run, m).pendingToolCall == StateAt(init, run, n).pendingToolCall
  {
    hide IsRun, Risky, Approves, ToolFacts, ApprovalFacts, Valid;
    StartsEmpty(init, run);
    j := n - 1;
    ToolFactsAt(init, run, j);
    RiskyWaitStep(StateAt(init, run, j), run[j].op, run[j].out);
    if StateAt(init, run, j).status.WaitingTool? {
      j := ApprovalOrigin(init, run, n - 1);
    }
  }

  lemma StartFacts(init: RuntimeState, run: seq<Step>, k: nat)
    requires IsRun(init, run) && k < |run| && ToolStarted in run[k].out.events
    ensures StateAt(init, run, k).status.WaitingTool? && StateAt(init, run, k).pendingToolCall.Some?
    ensures StateAt(init, run, k + 1).pendingToolCall == StateAt(init, run, k).pendingToolCall
  {
    hide IsRun, ToolFacts, Risky, Approves;
    ToolFactsAt(init, run, k);
  }

  lemma ApprovedAfterIssued(init: RuntimeState, run: seq<Step>, i: nat, j: nat)
    requires IsRun(init, run) && i < |run| && j < |run| && ToolCalled in run[i].out.events && run[j].op.Review?
    requires j <= i ==> StateAt(init, run, i).pendingToolCall.Some?
    ensures i < j
  {
    hide Apply, Valid, IsRun, Live, ToolFacts;
    ToolFactsAt(init, run, i);
    RunIsLive(init, run, i);
    CallsWhileDeciding(StateAt(init, run, i), run[i].op, run[i].out);
  }

  /** A live state that lets a tool be called has no call pending. */
  lemma CallsWhileDeciding(s: RuntimeState, op: Op, out: Transition)
    requires Live(s) && ToolFacts(s, op, out) && ToolCalled in out.events
    ensures s.pendingToolCall.None?
  {
    hide ToolEvents, UsedCalls, Risky, Trim;
  }

  /** Whatever the execution mode: when a write or cost tool starts, its call was issued before,
      then approved under the same identity, and it stayed the same call, arguments included. */
  lemma StartedOnlyWhenApproved(init: RuntimeState, run: seq<Step>, k: nat) returns (i: nat, j: nat)
    requires IsRun(init, run) && k < |run| && ToolStarted in run[k].out.events
    requires StateAt(init, run, k).pendingToolCall.Some? && Risky(StateAt(init, run, k).pendingToolCall.value)
    ensures i < j < k && IssuedBy(run[i].op, run[i].out)
    ensures forall m :: i < m < k ==> ToolCalled !in run[m].out.events
    ensures var call := TrimCall(DecisionOf(run[i].op).value.toolCall.value);
            && Approves(run[j].op, call)
            && forall m :: i < m <= k + 1 ==> StateAt(init, run, m).pendingToolCall == Some(call)
  {
    hide Apply, Valid, TrimCall, Risky, IsRun;
    StartFacts(init, run, k);
    i := CallOrigin(init, run, k);
    assert StateAt(init, run, i + 1) == run[i].out.state;
    j := ApprovalOrigin(init, run, k);
    ApprovedAfterIssued(init, run, i, j);
  }

  // ---------------------------------------------------------------- delivery

  /** What is frozen stays frozen between any two points of a run. */
  lemma {:induction false} RunGrows(init: RuntimeState, run: seq<Step>, m: nat, n: nat)
    requires IsRun(init, run) && m <= n <= |run|
    ensures Grows(StateAt(init, run, m), StateAt(init, run, n))
  {
    hide IsRun;
    if m < n {
      RunGrows(init, run, m, n - 1);
      GrowsAt(init, run, n - 1);
      GrowsOn(StateAt(init, run, m), StateAt(init, run, n - 1), StateAt(init, run, n));
    }
  }

  lemma GrowsOn(s: RuntimeState, t: RuntimeState, u: RuntimeState)
    requires Grows(s, t) && Grows(t, u)
    ensures Grows(s, u)
  {
  }

  lemma LoadStep(s: RuntimeState, op: Op, out: Transition, dir: string)
    requires LoadFacts(s, op, out) && dir in out.state.loadedSkillDirs && dir !in s.loadedSkillDirs
    ensures Loads(s, op, dir)
  {
    hide Loads, AddLoadedSkillDir;
    SortedElements(s.loadedSkillDirs, op.resolution.output.skillsLoad.value.dir);
  }

  /** A directory counted as loaded was loaded by a resolved tool call with the frozen skill. */
  lemma {:induction false} LoadOrigin(init: RuntimeState, run: seq<Step>, n: nat, dir: string) returns (k: nat)
    requires IsRun(init, run) && n <= |run| && dir in StateAt(init, run, n).loadedSkillDirs
    ensures k < n && Loads(StateAt(init, run, k), run[k].op, dir)
  {
    hide IsRun, Loads, LoadFacts, SuccessFacts, Valid;
    StartsEmpty(init, run);
    if dir in StateAt(init, run, n - 1).loadedSkillDirs {
      k := LoadOrigin(init, run, n - 1, dir);
    } else {
      k := n - 1;
      DeliveryFactsAt(init, run, k);
      LoadStep(StateAt(init, run, k), run[k].op, run[k].out, dir);
    }
  }

  lemma SortedElements(loaded: seq<string>, dir: string)
    ensures forall d :: d in AddLoadedSkillDir(loaded, dir) <==> d in loaded || d == dir
  {
    LessIsStrictTotal();
    SortCorrect(Less, loaded + [dir]);
    var sorted := Sort(Less, loaded + [dir]);
    forall d ensures d in sorted <==> d in loaded || d == dir {
      assert d in multiset(sorted) <==> d in multiset(loaded + [dir]);
    }
  }

  /** The final decision that succeeded, accepted in step k with this evidence. */
  predicate SucceededBy(init: RuntimeState, run: seq<Step>, k: nat)
    requires k < |run|
  {
    && DecisionOf(run[k].op).Some? && EvidenceOf(run[k].op).Some? && DecisionOf(run[k].op).value.final.Some?
    && StateAt(init, run, |run|).expectedDelivery == Some(DecisionOf(run[k].op).value.final.value.expectedDelivery)
    && Delivery.Verify(DecisionOf(run[k].op).value.final.value.expectedDelivery, EvidenceOf(run[k].op).value).status.Satisfied?
    && StateAt(init, run, |run|).finalMessage == Trim(DecisionOf(run[k].op).value.final.value.message) != ""
  }

  lemma {:induction false} SuccessOrigin(init: RuntimeState, run: seq<Step>, n: nat) returns (k: nat)
    requires IsRun(init, run) && n <= |run| && StateAt(init, run, n).status.Succeeded?
    ensures k < n && SuccessFacts(StateAt(init, run, k), run[k].op, run[k].out)
    ensures !StateAt(init, run, k).status.Succeeded? && StateAt(init, run, k + 1).status.Succeeded?
  {
    hide IsRun, SuccessFacts, LoadFacts, Valid;
    StartsEmpty(init, run);
    if StateAt(init, run, n - 1).status.Succeeded? {
      k := SuccessOrigin(init, run, n - 1);
    } else {
      k := n - 1;
      DeliveryFactsAt(init, run, k);
    }
  }

  /** The contract of a run is the one first frozen. */
  lemma OneContract(init: RuntimeState, run: seq<Step>)
    requires IsRun(init, run)
    ensures forall m :: 0 <= m <= |run| && StateAt(init, run, m).expectedDelivery.Some? ==>
              StateAt(init, run, m).expectedDelivery == StateAt(init, run, |run|).expectedDelivery
  {
    hide IsRun;
    forall m | 0 <= m <= |run| ensures Grows(StateAt(init, run, m), StateAt(init, run, |run|)) {
      RunGrows(init, run, m, |run|);
    }
  }

  /** A run that succeeded delivered what was frozen first: one contract throughout, all selected
      skills loaded, evidence for every criterion and a witness for every required artifact. */
  lemma SuccessMeansDelivery(init: RuntimeState, run: seq<Step>) returns (k: nat)
    requires IsRun(init, run) && StateAt(init, run, |run|).status.Succeeded?
    ensures k < |run| && SucceededBy(init, run, k)
    ensures forall m :: 0 <= m <= |run| && StateAt(init, run, m).expectedDelivery.Some? ==>
              StateAt(init, run, m).expectedDelivery == StateAt(init, run, |run|).expectedDelivery
    ensures forall skill :: skill in StateAt(init, run, |run|).configuration.skills ==>
              skill.dir in StateAt(init, run, |run|).loadedSkillDirs
    ensures var contract := StateAt(init, run, |run|).expectedDelivery.value;
            forall kind :: kind in contract.requiredArtifacts ==> Delivery.Witnessed(contract, EvidenceOf(run[k].op).value, kind)
  {
    hide IsRun, Delivery.Verify, Delivery.ValidDelivery, MissingSkillDirs, Trim, Delivery.Witnessed, SuccessFacts;
    k := SuccessOrigin(init, run, |run|);
    TerminalForever(init, run, k + 1, |run|);
    GrowsAt(init, run, k);
    OneContract(init, run);
    hide Grows;
    var last, out := StateAt(init, run, |run|), run[k].out;
    assert last == out.state;
    SuccessUnfolds(StateAt(init, run, k), run[k].op, out);
    var contract, evidence := last.expectedDelivery.value, EvidenceOf(run[k].op).value;
    forall kind | kind in contract.requiredArtifacts ensures Delivery.Witnessed(contract, evidence, kind) {
      Delivery.RequiredArtifactsAreWitnessed(contract, evidence, kind);
    }
  }

  lemma SuccessUnfolds(s: RuntimeState, op: Op, out: Transition)
    requires SuccessFacts(s, op, out) && out.state.status.Succeeded? && !s.status.Succeeded?
    ensures DecisionOf(op).Some? && EvidenceOf(op).Some? && DecisionOf(op).value.final.Some?
    ensures var final := DecisionOf(op).value.final.value;
            && out.state.expectedDelivery == Some(final.expectedDelivery)
            && Delivery.Verify(final.expectedDelivery, EvidenceOf(op).value).status.Satisfied?
            && out.state.finalMessage == Trim(final.message) != ""
    ensures forall skill :: skill in s.configuration.skills ==> skill.dir in out.state.loadedSkillDirs
  {
    hide Delivery.Verify, Trim, MissingSkillDirs;
  }

  // ---------------------------------------------------------------- steers

  /** The steers newly accepted during a run, in order. */
  function Accepted(run: seq<Step>): seq<Steer> {
    if run == [] then [] else Accepted(run[..|run| - 1]) + AcceptedSteer(run[|run| - 1].op, run[|run| - 1].out)
  }

  /** The batches consumed during a run, joined. */
  function Consumed(run: seq<Step>): seq<Steer> {
    if run == [] then [] else Consumed(run[..|run| - 1]) + run[|run| - 1].out.consumed
  }

  lemma SteerAlgebra(accepted: seq<Steer>, consumed: seq<Steer>, pending: seq<Steer>, a: seq<Steer>, c: seq<Steer>, next: seq<Steer>)
    requires accepted == consumed + pending && pending + a == c + next
    ensures accepted + a == (consumed + c) + next
  {
    assert accepted + a == consumed + (pending + a);
  }

  predicate Conserved(s: RuntimeState, accepted: seq<Steer>, consumed: seq<Steer>) {
    if s.status.Cancelled? then s.pendingSteers == [] && consumed <= accepted
    else accepted == consumed + s.pendingSteers
  }

  lemma SteerStep(s: RuntimeState, op: Op, out: Transition, accepted: seq<Steer>, consumed: seq<Steer>)
    requires SteerFacts(s, op, out) && Conserved(s, accepted, consumed)
    requires s.status.Terminal() ==> out.state == s && out.events == [] && out.consumed == []
    ensures Conserved(out.state, accepted + AcceptedSteer(op, out), consumed + out.consumed)
  {
    if s.status.Terminal() {
      assert accepted + [] == accepted && consumed + [] == consumed;
    } else if op.InterruptRun? {
      assert accepted + [] == accepted && consumed + [] == consumed;
    } else {
      hide AcceptedSteer;
      SteerAlgebra(accepted, consumed, s.pendingSteers, AcceptedSteer(op, out), out.consumed, out.state.pendingSteers);
    }
  }

  /** No steer is lost, repeated or reordered: what was accepted is what was consumed followed by
      what is pending. Only an interruption drops the pending ones. */
  lemma {:induction false} SteersAreConserved(init: RuntimeState, run: seq<Step>)
    requires IsRun(init, run)
    ensures Conserved(StateAt(init, run, |run|), Accepted(run), Consumed(run))
  {
    hide Apply, Valid, ToolFacts, ApprovalFacts, SuccessFacts, LoadFacts, Grows, Live, Idle, Measure, SteerFacts, AcceptedSteer;
    if run != [] {
      var n := |run| - 1;
      PrefixIsRun(init, run, n);
      SteersAreConserved(init, run[..n]);
      StepOfRun(init, run, n);
      if StateAt(init, run, n).status.Terminal() {
        TerminalIsAbsorbing(StateAt(init, run, n), run[n].op);
      }
      hide IsRun, Conserved;
      SteerStep(StateAt(init, run, n), run[n].op, run[n].out, Accepted(run[..n]), Consumed(run[..n]));
    }
  }

  lemma AcceptedSteerStep(s: RuntimeState, op: Op, out: Transition)
    requires SteerFacts(s, op, out) && AcceptedSteer(op, out) != []
    ensures op.SteerRun? && s.stateVersion == op.request.expectedStateVersion && out.state.stateVersion == s.stateVersion + 1
  {
    hide Trim;
  }

  /** Two steers newly accepted in one run expected different versions, in rising order: the same
      request is never appended twice. */
  lemma SteersAppendOnce(init: RuntimeState, run: seq<Step>, i: nat, j: nat)
    requires IsRun(init, run) && i < j < |run|
    requires AcceptedSteer(run[i].op, run[i].out) != [] && AcceptedSteer(run[j].op, run[j].out) != []
    ensures run[i].op.request.expectedStateVersion < run[j].op.request.expectedStateVersion
  {
    hide IsRun, SteerFacts, AcceptedSteer;
    SteerFactsAt(init, run, i);
    SteerFactsAt(init, run, j);
    RunGrows(init, run, i + 1, j);
    AcceptedSteerStep(StateAt(init, run, i), run[i].op, run[i].out);
    AcceptedSteerStep(StateAt(init, run, j), run[j].op, run[j].out);
  }

  // ---------------------------------------------------------------- clarifications

  /** What a completing submission leaves in the history. */
  predicate CompletedBy(s: RuntimeState, first: Submission, completed: C.Completed) {
    && s.pendingClarification.Some?
    && completed.request == s.pendingClarification.value.request
    && completed.request.requestId == Trim(first.requestId)
    && completed.completionQuestionId == Trim(first.questionId)
    && completed.completionExpectedStateVersion == first.expectedStateVersion
    && var canonical := C.CanonicalAnswer(completed.request, Trim(first.questionId), first.answer);
       canonical.Success? && C.AnswerFor(completed.answers, Trim(first.questionId)) == Some(canonical.value)
  }

  lemma CompletingStep(s: RuntimeState, first: Submission) returns (completed: C.Completed)
    requires ApplyClarificationResponse(s, first).Success? && first.complete
    requires ApplyClarificationResponse(s, first).value.state != s
    ensures CompletedBy(s, first, completed)
    ensures ApplyClarificationResponse(s, first).value.state.clarificationHistory == s.clarificationHistory + [completed]
    ensures C.BoundedText(Trim(first.requestId), 120) && C.BoundedText(Trim(first.questionId), 120) && first.expectedStateVersion >= 1
  {
    hide Trim, C.CanonicalAnswer, C.AnswerFor, C.Upsert, C.Complete, C.BoundedText, C.ValidRecord, C.ValidCompleted;
    hide ValidHistory, ValidPendingSteers, ValidUserMessage, ValidConfiguration, ValidFeedback, Delivery.ValidDelivery,
      ValidLoadedSkillDirs;
    var pending := s.pendingClarification.value;
    AnswerIsRecorded(pending.request, pending.answers, Trim(first.questionId), first.answer);
    var answer := C.CanonicalAnswer(pending.request, Trim(first.questionId), first.answer).value;
    completed := C.Completed(pending.request, C.Upsert(pending.request, pending.answers, answer), Trim(first.questionId), first.expectedStateVersion);
  }

  lemma CompletedStaysFound(s: RuntimeState, index: nat)
    requires Valid(s) && index < |s.clarificationHistory|
    ensures CompletedByRequestId(s.clarificationHistory, s.clarificationHistory[index].request.requestId) == Some(s.clarificationHistory[index])
  {
    hide C.ValidCompleted, ValidPendingSteers, ValidUserMessage, ValidConfiguration, ValidFeedback, Delivery.ValidDelivery,
      ValidLoadedSkillDirs, ValidPendingClarification;
    var c := s.clarificationHistory[index];
    assert CompletedRequest(s.clarificationHistory, c.request.requestId);
    var found := CompletedByRequestId(s.clarificationHistory, c.request.requestId).value;
    var j :| 0 <= j < |s.clarificationHistory| && s.clarificationHistory[j] == found;
    assert j == index;
  }

  lemma StepApplies(init: RuntimeState, run: seq<Step>, k: nat)
    requires IsRun(init, run) && k < |run|
    ensures Apply(StateAt(init, run, k), run[k].op) == Success(run[k].out)
  {
    hide Apply, Initial;
  }

  lemma ClarifyApplies(s: RuntimeState, submission: Submission)
    ensures Apply(s, Clarify(submission)) == ApplyClarificationResponse(s, submission)
  {
    hide ApplyClarificationResponse;
  }

  /** After a submission completed a request, every later valid state of the run takes a submission
      for that request exactly when it says the same again, and then changes nothing. */
  lemma CompletionReplays(init: RuntimeState, run: seq<Step>, k: nat, n: nat, again: Submission)
    requires IsRun(init, run) && k < n <= |run|
    requires run[k].op.Clarify? && run[k].op.submission.complete && run[k].out.state != StateAt(init, run, k)
    requires Valid(StateAt(init, run, n)) && Trim(again.requestId) == Trim(run[k].op.submission.requestId)
    ensures StateAt(init, run, k).pendingClarification.Some?
    ensures var first, later := run[k].op.submission, StateAt(init, run, n);
            var request := StateAt(init, run, k).pendingClarification.value.request;
            (if again.complete && Trim(again.questionId) == Trim(first.questionId) &&
                again.expectedStateVersion == first.expectedStateVersion &&
                C.CanonicalAnswer(request, Trim(again.questionId), again.answer) ==
                C.CanonicalAnswer(request, Trim(first.questionId), first.answer)
             then Apply(later, Clarify(again)) == Success(Transition(later, [], replayed := true))
             else Apply(later, Clarify(again)).Failure?)
  {
    hide IsRun, Valid, Apply, Trim, ApplyClarificationResponse, C.CanonicalAnswer, C.AnswerFor, C.BoundedText;
    var s, later, first := StateAt(init, run, k), StateAt(init, run, n), run[k].op.submission;
    StepApplies(init, run, k);
    ClarifyApplies(s, first);
    var completed := CompletingStep(s, first);
    RunGrows(init, run, k + 1, n);
    var index := |s.clarificationHistory|;
    assert later.clarificationHistory[index] == completed;
    CompletedStaysFound(later, index);
    SubmissionAgainstCompleted(later, completed, s, first, again);
  }

  lemma SubmissionAgainstCompleted(later: RuntimeState, completed: C.Completed, s: RuntimeState, first: Submission, again: Submission)
    requires Valid(later) && CompletedBy(s, first, completed)
    requires CompletedByRequestId(later.clarificationHistory, completed.request.requestId) == Some(completed)
    requires Trim(again.requestId) == Trim(first.requestId)
    requires C.BoundedText(Trim(first.requestId), 120) && C.BoundedText(Trim(first.questionId), 120) && first.expectedStateVersion >= 1
    ensures if again.complete && Trim(again.questionId) == Trim(first.questionId) &&
               again.expectedStateVersion == first.expectedStateVersion &&
               C.CanonicalAnswer(completed.request, Trim(again.questionId), again.answer) ==
               C.CanonicalAnswer(completed.request, Trim(first.questionId), first.answer)
            then Apply(later, Clarify(again)) == Success(Transition(later, [], replayed := true))
            else Apply(later, Clarify(again)).Failure?
  {
    hide Valid, Trim, C.CanonicalAnswer, C.AnswerFor, CompletedByRequestId, C.BoundedText, AnswerPending;
  }
}
