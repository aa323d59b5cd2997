/** Theorems about runs that name tools, results and skills by their values. */
module RuntimeResults {
  import opened Text
  import opened Ordering
  import opened Runtime
  import opened RuntimeSteps
  import opened RuntimeRuns
  import opened RuntimeTheorems
  import opened RuntimeOutcomes

  // ---------------------------------------------------------------- approvals

  /** A step that issues exactly this call, its identity trimmed. */
  predicate IssuesCall(step: Step, call: ToolCall) {
    && ToolCalled in step.out.events
    && (step.op.Advance? || step.op.AdvanceExternal?)
    && var d := (if step.op.Advance? then step.op.input else step.op.externalInput).decision;
       d.toolCall.Some? && call == d.toolCall.value.(toolCallId := Trim(d.toolCall.value.toolCallId))
  }

  /** A step that approves exactly this call. */
  predicate ApprovesCall(step: Step, call: ToolCall) {
    && step.op.Review? && step.op.review.decision == Approve
    && Trim(step.op.review.toolCallId) == call.toolCallId && step.op.review.actionVersion == call.actionVersion
  }

  lemma IssueShape(s: RuntimeState, step: Step)
    requires Apply(s, step.op) == Success(step.out) && IssuedBy(step.op, step.out)
    ensures IssuesCall(step, step.out.state.pendingToolCall.value)
  {
    hide AdvanceForToolSchema, AdvanceThenReplay, RejectModelDecision, RejectReusedToolIdentity, RejectToolDecision, ResolveTool,
      BeginToolExecution, ReviewToolApproval, InvalidateToolApproval, ApplyClarificationResponse, AppendSteer, ConsumePendingSteers, Interrupt,
      Terminate, Fail, ExpireRuntimeAt, BeginModelRequest, AdvanceExternalDecision, Trim;
    if step.op.Replay? {
      ReplayHoldsNoCall(s, step.op.replayInput, step.op.replaySchema, step.op.replay, step.out);
    }
  }

  /** Whenever one of the four tools that write or cost something starts, its very call was issued before,
      approved after that under its own identity, and left unchanged throughout. */
  lemma GuardedStartWasApproved(init: RuntimeState, run: seq<Step>, k: nat) returns (i: nat, j: nat, call: ToolCall)
    requires IsRun(init, run) && k < |run| && ToolStarted in run[k].out.events
    requires StateAt(init, run, k).pendingToolCall.Some? ==>
               StateAt(init, run, k).pendingToolCall.value.toolName in {CanvasApplyOps, AssetsPublish, MediaGenerate, VisionAnalyze}
    ensures i < j < k && StateAt(init, run, k).pendingToolCall == Some(call)
    ensures IssuesCall(run[i], call) && ApprovesCall(run[j], call)
    ensures forall m :: i < m <= k + 1 ==> StateAt(init, run, m).pendingToolCall == Some(call)
    ensures forall m :: i < m < k ==> ToolCalled !in run[m].out.events
  {
    hide Apply, IsRun, IssuedBy, IssuesCall, Risky, TrimCall;
    StartFacts(init, run, k);
    call := StateAt(init, run, k).pendingToolCall.value;
    RiskyExactly(call);
    i, j := StartedOnlyWhenApproved(init, run, k);
    assert StateAt(init, run, i + 1) == run[i].out.state;
    StepApplies(init, run, i);
    IssueShape(StateAt(init, run, i), run[i]);
  }

  // ---------------------------------------------------------------- results

  lemma ResultAt(init: RuntimeState, run: seq<Step>, k: nat)
    requires IsRun(init, run) && k < |run|
    ensures ResultFacts(StateAt(init, run, k), run[k].op, run[k].out) && StateAt(init, run, k + 1) == run[k].out.state
  {
    hide IsRun, Apply, ResultFacts;
    StepApplies(init, run, k);
    ResultExactly(StateAt(init, run, k), run[k].op, run[k].out);
  }

  /** Step m neither brings a tool result nor drops the one that is held. */
  predicate KeepsResult(init: RuntimeState, run: seq<Step>, m: nat)
    requires m < |run|
  {
    ToolResulted !in run[m].out.events && !StartsAfresh(StateAt(init, run, m), run[m].op)
  }

  /** Step k brought this result and nothing since touched it. */
  predicate BroughtAt(init: RuntimeState, run: seq<Step>, k: nat, n: nat, result: ToolResult)
    requires k < n <= |run|
  {
    && ToolResulted in run[k].out.events && Supplied(StateAt(init, run, k), run[k].op) == Some(result)
    && forall m :: k < m < n ==> KeepsResult(init, run, m)
  }

  lemma StartsWithoutResult(init: RuntimeState, run: seq<Step>)
    requires IsRun(init, run)
    ensures init.lastToolResult.None?
  {
    hide Valid, Apply;
  }

  /** The result a state holds was brought, whole, by one step of the run, the last one that brought or
      dropped any. */
  lemma {:induction false} ResultWasBrought(init: RuntimeState, run: seq<Step>, n: nat) returns (k: nat)
    requires IsRun(init, run) && n <= |run| && StateAt(init, run, n).lastToolResult.Some?
    ensures k < n && BroughtAt(init, run, k, n, StateAt(init, run, n).lastToolResult.value)
  {
    hide IsRun, Supplied, StartsAfresh;
    StartsWithoutResult(init, run);
    k := n - 1;
    ResultAt(init, run, k);
    if Supplied(StateAt(init, run, k), run[k].op).None? {
      k := ResultWasBrought(init, run, n - 1);
    }
  }

  /** A result that a step brought is held, whole, until the next step that brings or drops one. */
  lemma {:induction false} BroughtResultIsHeld(init: RuntimeState, run: seq<Step>, k: nat, n: nat, result: ToolResult)
    requires IsRun(init, run) && k < n <= |run| && BroughtAt(init, run, k, n, result)
    ensures StateAt(init, run, n).lastToolResult == Some(result)
  {
    hide IsRun, Supplied, StartsAfresh;
    ResultAt(init, run, n - 1);
    if k < n - 1 {
      assert KeepsResult(init, run, n - 1);
      BroughtResultIsHeld(init, run, k, n - 1, result);
    }
  }

  /** So a state holds a result if and only if some step brought it and nothing since touched it. */
  lemma ResultHeldExactly(init: RuntimeState, run: seq<Step>, n: nat, result: ToolResult)
    requires IsRun(init, run) && n <= |run|
    ensures StateAt(init, run, n).lastToolResult == Some(result) <==> exists k: nat :: k < n && BroughtAt(init, run, k, n, result)
  {
    hide IsRun, BroughtAt;
    if StateAt(init, run, n).lastToolResult == Some(result) {
      var k := ResultWasBrought(init, run, n);
    }
    if k: nat :| k < n && BroughtAt(init, run, k, n, result) {
      BroughtResultIsHeld(init, run, k, n, result);
    }
  }

  // ---------------------------------------------------------------- loaded skills

  /** The step resolves a call that loads skills, successfully, with a frozen skill of this directory. */
  predicate LoadsDir(s: RuntimeState, op: Op, dir: string) {
    op.Resolve? && LoadsSkill(s, op.resolution) && ShowsFrozenSkill(s, op.resolution.output) && op.resolution.output.skillsLoad.value.dir == dir
  }

  lemma ResolveLoads(s: RuntimeState, r: ToolResolution, out: Transition, dir: string)
    requires ResolveTool(s, r) == Success(out)
    ensures dir in out.state.loadedSkillDirs <==> dir in s.loadedSkillDirs || LoadsDir(s, Resolve(r), dir)
  {
    hide Valid, Trim, AddLoadedSkillDir, ConsistentResolution, ValidOutput;
    if r.output.skillsLoad.Some? {
      SortedElements(s.loadedSkillDirs, r.output.skillsLoad.value.dir);
    }
  }

  lemma StepLoads(s: RuntimeState, op: Op, out: Transition, dir: string)
    requires Apply(s, op) == Success(out)
    ensures dir in out.state.loadedSkillDirs <==> dir in s.loadedSkillDirs || LoadsDir(s, op, dir)
  {
    hide AdvanceForToolSchema, AdvanceThenReplay, RejectModelDecision, RejectReusedToolIdentity, RejectToolDecision, ResolveTool,
      BeginToolExecution, ReviewToolApproval, InvalidateToolApproval, ApplyClarificationResponse, AppendSteer, ConsumePendingSteers, Interrupt,
      Terminate, Fail, ExpireRuntimeAt, BeginModelRequest, AdvanceExternalDecision, Moves, ToolFacts, ApprovalFacts, SteerFacts, SuccessFacts,
      Loads, LoadsSkill, ShowsFrozenSkill;
    if op.Resolve? {
      ResolveLoads(s, op.resolution, out, dir);
    } else {
      AcceptedStep(s, op);
    }
  }

  /** A directory counts as loaded if and only if some step before resolved a successful load of the skill
      frozen under it: no load is lost and none is made up. */
  lemma {:induction false} LoadedExactly(init: RuntimeState, run: seq<Step>, n: nat, dir: string)
    requires IsRun(init, run) && n <= |run|
    ensures dir in StateAt(init, run, n).loadedSkillDirs <==>
            exists k: nat :: k < n && LoadsDir(StateAt(init, run, k), run[k].op, dir)
  {
    hide IsRun, LoadsDir, Apply;
    if n == 0 {
      StartsEmpty(init, run);
    } else {
      LoadedExactly(init, run, n - 1, dir);
      StepApplies(init, run, n - 1);
      StepLoads(StateAt(init, run, n - 1), run[n - 1].op, run[n - 1].out, dir);
    }
  }
}
