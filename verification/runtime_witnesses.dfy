/** Runs that the theorems about success, started tools and tool results speak of do exist. */
module RuntimeWitnesses {
  import opened Text
  import opened Ordering
  import opened Runtime
  import opened RuntimeSteps
  import opened RuntimeRuns
  import opened RuntimeTheorems
  import Delivery

  /** A fresh run without skills or limits. */
  function Fresh(message: string): RuntimeState {
    RuntimeState(1, 0, 2, Queued, None, None, None, false, None, [], None, None, "", "", message,
                 Configuration([], Automatic, true), [], [], None)
  }

  lemma FreshIsInitial(message: string)
    requires PlainText(message)
    ensures Initial(Fresh(message))
  {
    hide Utf8Len, Trimmed, Less;
    assert Trim(message) == message;
  }

  lemma NothingMissing()
    ensures MissingSkillDirs([], []) == []
  {
  }

  lemma AnswerIsSatisfied(message: string)
    requires PlainText(message)
    ensures Delivery.Verify(ANSWER_CONTRACT, FinalAnswer(message).evidence).status.Satisfied?
  {
    hide Delivery.ValidDelivery, Delivery.ValidArtifact, Utf8Len;
    AnswerContractIsValid();
    Delivery.VerdictExactly(ANSWER_CONTRACT, FinalAnswer(message).evidence);
    assert Trim(message) == message;
  }

  lemma AnswerAdvances(s: RuntimeState, message: string)
    requires Advanceable(s) && s.expectedDelivery.None? && s.configuration.skills == [] && s.loadedSkillDirs == [] && PlainText(message)
    ensures AdvanceForToolSchema(s, FinalAnswer(message), CURRENT_TOOL_SCHEMA).Success?
    ensures AdvanceForToolSchema(s, FinalAnswer(message), CURRENT_TOOL_SCHEMA).value.state.status.Succeeded?
  {
    hide Valid, Delivery.ValidDelivery, Delivery.Verify, Utf8Len, Trimmed;
    AnswerContractIsValid();
    AnswerIsSatisfied(message);
    NothingMissing();
    assert Trim(message) == message;
  }

  /** A run may succeed. */
  lemma DeliveredRunExists(message: string) returns (init: RuntimeState, run: seq<Step>)
    requires PlainText(message)
    ensures IsRun(init, run) && StateAt(init, run, |run|).status.Succeeded?
  {
    hide Valid, AdvanceForToolSchema, PlainText;
    init := Fresh(message);
    FreshIsInitial(message);
    assert Advanceable(init);
    AnswerAdvances(init, message);
    var op := Advance(FinalAnswer(message), CURRENT_TOOL_SCHEMA);
    run := [Step(op, Apply(init, op).value)];
  }

  function CallOf(name: ToolName, id: string): ToolCall {
    ToolCall(id, name, 1, Arguments("{}", true), ANSWER_CONTRACT)
  }

  /** A decision to call a tool that costs. */
  function CostlyCall(id: string): ToolCall {
    CallOf(MediaGenerate, id)
  }

  function CallInput(name: ToolName, id: string): RuntimeInput {
    RuntimeInput(ModelDecision(ToolCallKind, None, Some(CallOf(name, id)), None), Delivery.Evidence("", "", 0, false, []))
  }

  lemma CallAdvances(s: RuntimeState, name: ToolName, id: string)
    requires Advanceable(s) && s.expectedDelivery.None? && s.limits.None? && s.stepNumber + 1 < s.maxSteps && PlainText(id)
    requires CurrentTool(name)
    ensures AdvanceForToolSchema(s, CallInput(name, id), CURRENT_TOOL_SCHEMA).Success?
    ensures var t := AdvanceForToolSchema(s, CallInput(name, id), CURRENT_TOOL_SCHEMA).value.state;
            && t.status == (if RiskOf(name).ReadRisk? then WaitingTool else WaitingApproval)
            && t.pendingToolCall == Some(CallOf(name, id)) && !t.pendingToolStarted && t.stepNumber < t.maxSteps
    ensures !Overflows(s, Advance(CallInput(name, id), CURRENT_TOOL_SCHEMA))
  {
    hide Valid, Delivery.ValidDelivery, Utf8Len, Trimmed, MissingSkillDirs, FeedbackLength;
    AnswerContractIsValid();
    assert Trim(id) == id;
  }

  lemma ApprovalAdvances(s: RuntimeState, id: string)
    requires Valid(s) && s.status.WaitingApproval? && s.pendingToolCall == Some(CostlyCall(id)) && PlainText(id)
    requires s.stepNumber < s.maxSteps && !s.pendingToolStarted
    ensures ReviewToolApproval(s, ToolApproval(id, 1, Approve, "")).Success?
    ensures var t := ReviewToolApproval(s, ToolApproval(id, 1, Approve, "")).value.state;
            t.status.WaitingTool? && t.pendingToolCall == Some(CostlyCall(id)) && !t.pendingToolStarted
  {
    hide Valid, Utf8Len, Trimmed;
    assert Trim(id) == id;
  }

  lemma StartAdvances(s: RuntimeState, id: string)
    requires Valid(s) && s.status.WaitingTool? && s.pendingToolCall == Some(CostlyCall(id)) && PlainText(id) && !s.pendingToolStarted
    ensures BeginToolExecution(s, ToolExecution(id, 1)).Success?
    ensures ToolStarted in BeginToolExecution(s, ToolExecution(id, 1)).value.events
  {
    hide Valid, Utf8Len, Trimmed;
    assert Trim(id) == id;
  }

  lemma ThreeSteps(init: RuntimeState, a: Step, b: Step, c: Step)
    requires Initial(init) && Apply(init, a.op) == Success(a.out) && Apply(a.out.state, b.op) == Success(b.out)
    requires Apply(b.out.state, c.op) == Success(c.out)
    ensures IsRun(init, [a, b, c])
  {
    hide Apply, Initial;
    var run := [a, b, c];
    forall i | 0 <= i < |run| ensures Apply(StateAt(init, run, i), run[i].op) == Success(run[i].out) {
      assert i == 0 || i == 1 || i == 2;
    }
  }

  /** A tool that costs may start, after its approval. */
  lemma StartedToolRunExists(id: string) returns (init: RuntimeState, run: seq<Step>)
    requires PlainText(id)
    ensures IsRun(init, run) && |run| == 3 && ToolStarted in run[2].out.events
    ensures StateAt(init, run, 2).pendingToolCall.Some? && Risky(StateAt(init, run, 2).pendingToolCall.value)
  {
    hide Valid, AdvanceForToolSchema, ReviewToolApproval, BeginToolExecution, PlainText, Overflows;
    init := Fresh(id);
    FreshIsInitial(id);
    assert Advanceable(init);
    CallAdvances(init, MediaGenerate, id);
    var call := Advance(CallInput(MediaGenerate, id), CURRENT_TOOL_SCHEMA);
    var a := Step(call, Apply(init, call).value);
    StepKeepsValid(init, call);
    ApprovalAdvances(a.out.state, id);
    var approve := Review(ToolApproval(id, 1, Approve, ""));
    var b := Step(approve, Apply(a.out.state, approve).value);
    StepKeepsValid(a.out.state, approve);
    ReviewNeverOverflows(a.out.state, approve);
    StartAdvances(b.out.state, id);
    var begin := BeginTool(ToolExecution(id, 1));
    var c := Step(begin, Apply(b.out.state, begin).value);
    hide Apply;
    ThreeSteps(init, a, b, c);
    run := [a, b, c];
  }

  lemma ReviewNeverOverflows(s: RuntimeState, op: Op)
    requires op.Review?
    ensures !Overflows(s, op)
  {
    hide MissingSkillDirs, FeedbackLength;
  }

  function NodesRead(id: string): ToolResolution {
    ToolResolution(id, 1, true, Output("{\"nodes\":[]}", true, None), "", NoFailure)
  }

  lemma NodesAreValid(id: string)
    ensures ValidOutput(NodesRead(id).output)
  {
    hide Utf8Len;
    AsciiLen("{\"nodes\":[]}");
  }

  lemma ReadResolves(s: RuntimeState, id: string)
    requires Valid(s) && s.status.WaitingTool? && s.pendingToolCall == Some(CallOf(CanvasRead, id)) && PlainText(id)
    requires s.stepNumber < s.maxSteps
    ensures ResolveTool(s, NodesRead(id)).Success?
    ensures ResolveTool(s, NodesRead(id)).value.state.lastToolResult ==
            Some(ToolResult(id, 1, true, Output("{\"nodes\":[]}", true, None), ""))
  {
    hide Valid, Trimmed, Utf8Len, ValidOutput, ResolvedSkillDir, AddLoadedSkillDir;
    assert Trim(id) == id;
    assert Trim("") == "";
    NodesAreValid(id);
  }

  lemma TwoSteps(init: RuntimeState, a: Step, b: Step)
    requires Initial(init) && Apply(init, a.op) == Success(a.out) && Apply(a.out.state, b.op) == Success(b.out)
    ensures IsRun(init, [a, b])
  {
    hide Apply, Initial;
    var run := [a, b];
    forall i | 0 <= i < |run| ensures Apply(StateAt(init, run, i), run[i].op) == Success(run[i].out) {
      assert i == 0 || i == 1;
    }
  }

  /** A tool that only reads may be called and resolved; its result is held whole. */
  lemma ResolvedToolRunExists(id: string) returns (init: RuntimeState, run: seq<Step>)
    requires PlainText(id)
    ensures IsRun(init, run) && |run| == 2
    ensures StateAt(init, run, 2).lastToolResult == Some(ToolResult(id, 1, true, Output("{\"nodes\":[]}", true, None), ""))
  {
    hide Valid, AdvanceForToolSchema, ResolveTool, PlainText, Overflows;
    init := Fresh(id);
    FreshIsInitial(id);
    assert Advanceable(init);
    CallAdvances(init, CanvasRead, id);
    var call := Advance(CallInput(CanvasRead, id), CURRENT_TOOL_SCHEMA);
    var a := Step(call, Apply(init, call).value);
    StepKeepsValid(init, call);
    ReadResolves(a.out.state, id);
    var resolve := Resolve(NodesRead(id));
    var b := Step(resolve, Apply(a.out.state, resolve).value);
    hide Apply;
    TwoSteps(init, a, b);
    run := [a, b];
  }
}
