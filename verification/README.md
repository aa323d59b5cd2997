# Verification of the agent runtime and the local canvas agent

A Dafny model of the decision core of the creative agent: the run state machine of the backend, its
dependency graphs, camera trees and progress projection, the observer that streams a final message
out of a growing JSON text, the tool-request session and the Codex turn of the local agent, and the
timelines of media plans. `dafny verify dfyconfig.toml` checks all of it.

## Layout

| file | contents |
|---|---|
| `text.dfy` | optional values, Go strings (trimming, byte length, order), sorting |
| `artifact.dfy` | references to artifact revisions |
| `delivery.dfy` | delivery contracts and the check of evidence against them |
| `clarification.dfy` | clarification requests, canonical answers, records |
| `runtime.dfy`, `runtime_states.dfy` | the run state, its invariant and all transitions; the invariant on fields |
| `runtime_steps.dfy` | which transitions keep the invariant, one lemma each |
| `runtime_runs.dfy` | runs, and the facts of one accepted step |
| `runtime_theorems.dfy` | what holds of every run |
| `runtime_outcomes.dfy`, `runtime_refusals.dfy` | what each transition accepts and leaves, field by field; what it refuses, and why |
| `runtime_results.dfy` | runs by tool names, results and skills |
| `runtime_witnesses.dfy` | runs that succeed, start a tool and resolve one |
| `reachability.dfy`, `dependency_graph.dfy` | paths, cycles, Kahn's algorithm |
| `stale_closure.dfy`, `cycle_search.dfy` | breadth-first closures, three-colour depth-first search |
| `production_graph.dfy`, `production_graph_outcomes.dfy` | graph validation and the three staleness queries; the same on stages, revisions and walks |
| `camera_tree.dfy`, `camera_tree_outcomes.dfy` | camera trees; verdicts on lines of parents |
| `progress.dfy`, `progress_outcomes.dfy` | the next-action projection; its fields |
| `json_text.dfy`, `json_text_outcomes.dfy` | JSON texts and their decoding; its tables by value |
| `decision_stream.dfy`, `decision_document.dfy` | the observer, what it shows of a final decision |
| `decision_release.dfy` | what it shows and releases of any document, and whose message that is |
| `canvas_session_model.dfy`, `canvas_session.dfy`, `canvas_session_outcomes.dfy` | the tool-request session as a value and as an object; what it accepts |
| `codex_turn.dfy`, `codex_turn_endings.dfy` | the fold over Codex events; how turns end |
| `media_plan.dfy`, `media_plan_outcomes.dfy` | audio and assembly plans; which are accepted, on fields and timelines |

Transitions that take and return values are functions. What the programs do with loops over maps,
queues and lists, or by changing fields, is a method or a class proved against a function or a
declarative predicate. Go strings are sequences of characters with their byte length in UTF-8, so
limits in bytes and limits in characters are told apart. Where int64 matters it is a type of its own
and no operation may leave it.

## What turned out false

* A transition can break the state invariant: `RuntimeSteps.StepKeepsValid` says exactly when, and
  `RuntimeTheorems.StuckRunExists` gives a run into a live state that refuses every transition.
* The observer may release the message of a decision whose kind is not `final`:
  `DecisionDocument.ReleasedThoughNotFinal`, with the exact condition in
  `DecisionRelease.NotFinalReleasesExactly`. Member order decides: with the kind written first it never
  does (`DecisionRelease.KindFirstIsSafe`).
* The observer may release a message that is not the one of `final`, when `final` has none:
  `DecisionRelease.ForeignMessageIsReleased`, with the exact conditions in
  `DecisionRelease.FinalMessageExactly` and `DecisionRelease.ForeignMessageExactly`.
* Three clips of an accepted assembly plan may play at once: `MediaPlan.ThreeClipsMayOverlap`, with the
  exact condition in `MediaPlan.OnlyNeighboursOverlap`.

## Model

| member | source | states |
|---|---|---|
| RuntimeSteps.StepKeepsValid | backend/internal/agentruntime/runtime.go:365-721 | every accepted transition of a valid state, whichever of the eighteen requests it answers, yields a valid state, except exactly when `Overflows` holds: a final decision is turned down for missing skills and the joined directories make the feedback longer than 240 bytes |
| RuntimeSteps.MissingSkillsFeedbackFits | backend/internal/agentruntime/runtime.go:461-473 | the `required_skill_not_loaded` feedback is valid if and only if its 56-byte prefix plus the joined directories fit the bound of 764-771 |
| RuntimeSteps.AdvanceKeepsValid | backend/internal/agentruntime/runtime.go:365-496 | each branch of a model decision (clarification, tool call, final answer, changed contract) keeps the state invariant |
| RuntimeSteps.ResolveKeepsValid | backend/internal/agentruntime/runtime.go:559-614 | resolving a tool call keeps the state invariant, loaded skill directories included; what it stores is in `RuntimeOutcomes.ResultExactly` and `RuntimeResults.ResultHeldExactly` |
| RuntimeSteps.ReviewKeepsValid | backend/internal/agentruntime/runtime.go:633-680 | approving or rejecting a pending call keeps the state invariant |
| RuntimeSteps.InvalidateKeepsValid | backend/internal/agentruntime/runtime.go:682-721 | withdrawing an approval keeps the state invariant |
| RuntimeSteps.ReplayKeepsValid | backend/internal/agentruntime/capability_replay.go:57-106 | replaying a resolved call in place of advancing keeps the state invariant |
| RuntimeSteps.RejectToolKeepsValid | backend/internal/agentruntime/tool_outcome.go:27-83 | turning a tool decision down keeps the state invariant |
| RuntimeSteps.ClarifyKeepsValid | backend/internal/agentruntime/clarification.go:54-124 | an accepted clarification answer, partial, completing or repeated, keeps the state invariant |
| RuntimeSteps.SteeringKeepsValid | backend/internal/agentruntime/runtime.go:188-242 | accepting and consuming steers keeps the state invariant |
| RuntimeSteps.EndingKeepsValid | backend/internal/agentruntime/runtime.go:244-359 | interrupting, failing, terminating and expiring keep the state invariant |
| RuntimeSteps.RejectModelDecisionKeepsValid | backend/internal/agentruntime/runtime.go:500-527 | turning a malformed decision down keeps the state invariant |
| RuntimeSteps.RejectReusedKeepsValid | backend/internal/agentruntime/runtime.go:529-557 | turning a reused call identity down keeps the state invariant |
| RuntimeSteps.BeginToolKeepsValid | backend/internal/agentruntime/runtime.go:616-631 | starting the pending call keeps the state invariant |
| RuntimeSteps.ExternalIsAdvance | backend/internal/agentruntime/external_decision.go:17-28 | an accepted external decision is the same transition as advancing under the current tool schema |
| RuntimeSteps.OnlyFromValid | backend/internal/agentruntime/runtime.go:739-781 | no transition, not even an interruption, is accepted on an invalid state |
| RuntimeStates.ValidExactly | backend/internal/agentruntime/runtime.go:739-862 | the states accepted, field by field: bounded counts, distinct steers, ascending skills of which the loaded ones are some, questions under one contract with identities of their own |
| RuntimeSteps.ValidIsInterruptible | backend/internal/agentruntime/runtime.go:244-267 | every valid non-terminal state can be interrupted |
| RuntimeTheorems.RunsStayValid | backend/internal/agentruntime/runtime.go:365-721 | along every run all states but the last are valid, and the last one too unless the last step overflowed the feedback bound |
| RuntimeTheorems.MovesIffValid | backend/internal/agentruntime/runtime.go:739-781 | a non-terminal state accepts some transition if and only if it is valid, and then an interruption |
| RuntimeTheorems.StuckAfterFinalAnswer | backend/internal/agentruntime/runtime.go:461-473 | for any two directories whose joined length exceeds the bound there is a run of one step into a live state that refuses every transition |
| RuntimeTheorems.StuckRunExists | backend/internal/agentruntime/runtime.go:461-473 | such a run exists: the invariant is really broken by the missing-skills branch |
| RuntimeTheorems.OneSkillNeverOverflows | backend/internal/agentruntime/runtime.go:461-473 | with at most one selected skill the feedback always fits |
| RuntimeTheorems.ToolsNeverExhaustTheBudget | backend/internal/agentruntime/runtime.go:559-721 | in every reachable state the step-budget branches of resolving, reviewing and invalidating are unreachable: only a terminal failure class ends the run there |
| RuntimeTheorems.RunIsLive | backend/internal/agentruntime/runtime.go:365-721 | in every reachable non-terminal state steps remain, and a tool call is pending exactly while it is waited for |
| RuntimeTheorems.ProgressUsesMeasure | backend/internal/agentruntime/runtime.go:365-721 | four times the remaining steps plus the phase falls with every accepted transition except steers, their consumption, partial answers and repeats |
| RuntimeTheorems.ProgressIsBounded | backend/internal/agentruntime/runtime.go:365-721 | hence no run makes more progress than four steps per model step and two |
| RuntimeTheorems.TerminalForever | backend/internal/agentruntime/runtime.go:269-274 | a terminal state stays exactly as it is for the rest of the run, without events |
| RuntimeTheorems.ToolCallsAreBracketed | backend/internal/agentruntime/runtime.go:443-457 | between two `tool.call` events stands the `tool.result` of the first call; a run that ends with a call open has neither succeeded nor failed |
| RuntimeTheorems.CancelledByInterrupt | backend/internal/agentruntime/runtime.go:244-267 | only an interruption ends a run as cancelled |
| RuntimeTheorems.ToolCallsAreCounted | backend/internal/agentruntime/runtime.go:443-457 | with limits, the calls used equal the number of `tool.call` events of the run and never exceed the maximum |
| RuntimeTheorems.LimitsStay | backend/internal/agentruntime/runtime.go:791-803 | limits are never added, removed or changed except for the count, which stays within the maximum |
| RuntimeTheorems.StartedOnlyWhenApproved | backend/internal/agentruntime/runtime.go:433-458 | whatever the execution mode, a call that `Risky` marks starts only after it was issued and then approved under the same id and version, unchanged in between; `RuntimeResults.GuardedStartWasApproved` says it of the four tools by name |
| RuntimeTheorems.CallOrigin | backend/internal/agentruntime/runtime.go:433-458 | a pending call was issued by exactly the last `tool.call` and is unchanged since |
| RuntimeTheorems.ApprovalOrigin | backend/internal/agentruntime/runtime.go:633-680 | a risky call that may be executed was approved by its own identity |
| RuntimeTheorems.SuccessMeansDelivery | backend/internal/agentruntime/runtime.go:461-496 | a succeeded run kept the contract it froze first, has every selected skill loaded, evidence for every criterion and a witness for each required artifact kind |
| RuntimeTheorems.OneContract | backend/internal/agentruntime/runtime.go:384-403 | once frozen, the delivery contract of a run never changes |
| RuntimeTheorems.LoadOrigin | backend/internal/agentruntime/runtime.go:864-891 | a loaded skill directory was loaded by a resolved tool call naming the frozen skill |
| RuntimeTheorems.RunGrows | backend/internal/agentruntime/runtime.go:188-721 | between any two points of a run the version and step number never fall, the history is only appended to and the frozen parts stay |
| RuntimeTheorems.SteersAreConserved | backend/internal/agentruntime/runtime.go:188-242 | accepted steers are the consumed batches followed by the pending ones, in order; only an interruption drops the pending ones |
| RuntimeTheorems.SteersAppendOnce | backend/internal/agentruntime/runtime.go:188-220 | two steers newly accepted in one run expected different versions, so one request is appended at most once |
| RuntimeTheorems.CompletionReplays | backend/internal/agentruntime/clarification.go:54-124 | after a completing submission, a later valid state takes a submission for the same request if and only if it says the same again, and then changes nothing and reports a replay |
| RuntimeTheorems.CompletingStep | backend/internal/agentruntime/clarification.go:76-124 | a completing submission appends one record whose answer to its question is the canonical one |
| RuntimeWitnesses.DeliveredRunExists | backend/internal/agentruntime/runtime.go:474-480 | there are runs that succeed, so the theorem about them is not empty |
| RuntimeWitnesses.StartedToolRunExists | backend/internal/agentruntime/runtime.go:433-458 | there are runs in which a tool that costs starts, after its approval |
| RuntimeWitnesses.ResolvedToolRunExists | backend/internal/agentruntime/runtime.go:559-614 | there are runs in which a tool that only reads is called and resolved, its result held whole |
| RuntimeRuns.AcceptedStep | backend/internal/agentruntime/runtime.go:188-721 | one accepted step of any kind: growth, measure, tool events, approval, steer, delivery and loading facts together |
| RuntimeRuns.TerminalIsAbsorbing | backend/internal/agentruntime/runtime.go:269-274 | on a terminal state an accepted request changes nothing and emits nothing |
| RuntimeOutcomes.GateExactly | backend/internal/agentruntime/tools.go:74-103 | whatever the request and the execution mode, an issued call waits for approval if and only if its tool is one of canvas.applyOps, assets.publish, media.generate and vision.analyze, and runs at once if and only if it is one of canvas.read, assets.read and skills.load |
| RuntimeOutcomes.PolicyExactly | backend/internal/agentruntime/tools.go:74-83 | which tools read, which write and which cost something |
| RuntimeOutcomes.CallDecisionOutcome | backend/internal/agentruntime/runtime.go:433-458 | what a decision to call a tool leaves: the trimmed call under the gate of its tool, counted once, with the exact events, unless the step or call budget is spent |
| RuntimeResults.GuardedStartWasApproved | backend/internal/agentruntime/runtime.go:433-458 | in every run, before one of those four tools starts, that very call was issued, approved after that under its own identity and unchanged throughout, with no other call in between |
| RuntimeOutcomes.ResolveExactly | backend/internal/agentruntime/runtime.go:559-614 | a result is accepted if and only if it names the call waited for, is coherent and shows a loaded skill as it was frozen; only a final failure ends the run; every other field by value |
| RuntimeOutcomes.ResultExactly | backend/internal/agentruntime/runtime.go:500-721 | after any accepted step the state holds, whole, the result the request brought (reported, rejected, withdrawn, terminated, expired, reused and replayed calls each by value), none if a decision in line with the contract starts afresh, and what it held before otherwise |
| RuntimeResults.ResultHeldExactly | backend/internal/agentruntime/runtime.go:559-614 | in every run a state holds a result if and only if an earlier step brought exactly that result and no step since brought or dropped one |
| RuntimeResults.LoadedExactly | backend/internal/agentruntime/runtime.go:559-614 | in every run a skill directory counts as loaded if and only if an earlier step resolved a successful load of the skill frozen under it: no load is lost |
| RuntimeOutcomes.BeginToolExactly | backend/internal/agentruntime/runtime.go:616-631 | execution begins exactly once, for the call waited for, and changes nothing else |
| RuntimeOutcomes.ReviewExactly | backend/internal/agentruntime/runtime.go:633-680 | a review is accepted exactly for the call that waits for it; an approval leaves the very same call to run, a rejection drops it and hands the run back, each field by value |
| RuntimeOutcomes.InvalidateExactly | backend/internal/agentruntime/runtime.go:682-721 | an approval is withdrawn exactly for the call that waits for it and a known cause, with the code of that cause |
| RuntimeOutcomes.RejectToolExactly | backend/internal/agentruntime/tool_outcome.go:27-83 | when a tool decision is turned down, and the state it leaves |
| RuntimeOutcomes.RejectReusedExactly | backend/internal/agentruntime/runtime.go:529-557 | when a call with a used identity is turned down, and the state it leaves |
| RuntimeOutcomes.RejectModelExactly | backend/internal/agentruntime/runtime.go:500-527 | a malformed decision comes back as feedback exactly with a known code and a reason of at most 240 bytes |
| RuntimeOutcomes.FailExactly | backend/internal/agentruntime/runtime.go:309-327 | a run fails from inside exactly where it could advance, with a code in form |
| RuntimeOutcomes.TerminateExactly | backend/internal/agentruntime/runtime.go:329-359 | a run is failed from outside exactly while it is not over, and drops the call and question that were open |
| RuntimeOutcomes.ExpireExactly | backend/internal/agentruntime/runtime.go:276-291 | a deadline check ends the run if and only if the run is not over and its deadline has passed; otherwise nothing changes |
| RuntimeOutcomes.InterruptExactly | backend/internal/agentruntime/runtime.go:244-267 | an interruption is accepted exactly on the version it names; it keeps a call whose execution has begun and drops one that has not |
| RuntimeOutcomes.BeginModelExactly | backend/internal/agentruntime/runtime.go:292-307 | the first model request is accepted exactly on a queued run and starts it |
| RuntimeOutcomes.SteerExactly | backend/internal/agentruntime/runtime.go:188-220 | when a steer is accepted, appended or recognised as the same again, and what each refusal is |
| RuntimeOutcomes.ConsumeExactly | backend/internal/agentruntime/runtime.go:222-242 | the pending steers are handed over exactly while the model could decide next, all of them and in order |
| RuntimeOutcomes.AdvanceAcceptsExactly | backend/internal/agentruntime/runtime.go:365-384 | a decision is accepted exactly where the run can advance, under the current tool schema and in form |
| RuntimeOutcomes.ExternalAcceptsExactly | backend/internal/agentruntime/external_decision.go:17-28 | an external decision must also name the version of a running run |
| RuntimeOutcomes.ConflictOutcome | backend/internal/agentruntime/runtime.go:384-403 | a decision under another contract than the frozen one only costs a step and comes back as feedback |
| RuntimeOutcomes.QuestionOutcome | backend/internal/agentruntime/runtime.go:404-432 | what a decision to ask leaves: a question without answers, a spent budget, or a failure for an identity completed before |
| RuntimeOutcomes.FinalOutcome | backend/internal/agentruntime/runtime.go:459-496 | what a final answer leaves: feedback while a skill is missing, otherwise what its evidence decides |
| RuntimeOutcomes.FeedbackNamesMissing | backend/internal/agentruntime/runtime.go:461-466 | the feedback about missing skills is the fixed text followed by the missing directories, joined |
| RuntimeOutcomes.MissingNext | backend/internal/agentruntime/runtime.go:893-905 | one more selected skill is missing, at the end, unless it is loaded |
| RuntimeOutcomes.JoinSplits | backend/internal/agentruntime/runtime.go:464-466 | joining two lists joins each, with a separator between |
| RuntimeOutcomes.ReplayExactly | backend/internal/agentruntime/capability_replay.go:57-106 | a replay is accepted exactly for the guarded call the decision would issue, from a named source and with a coherent result; it stands for call and result at once |
| RuntimeOutcomes.AnswerExactly | backend/internal/agentruntime/clarification.go:54-124 | for a request not completed before: which error, which repeat and which new record an answer leads to; every other question keeps its answer |
| RuntimeRefusals.RefusedExactly | backend/internal/agentruntime/runtime.go:188-721 | a request of any other kind that is not accepted is refused for the first thing wrong with it, by name; checking the state it would leave never refuses it |
| RuntimeRefusals.RepeatExactly | backend/internal/agentruntime/clarification.go:54-75 | an answer to a request completed before is accepted if and only if it is the very answer that completed it, and then changes nothing |
| Runtime.ValidatePendingSteers | backend/internal/agentruntime/runtime.go:809-822 | accepts exactly the lists of valid steers with distinct request ids |
| Runtime.ValidateLoadedSkillDirs | backend/internal/agentruntime/runtime.go:907-923 | accepts exactly the strictly ascending lists of selected directories |
| Runtime.MissingRequiredSkillDirs | backend/internal/agentruntime/runtime.go:893-905 | lists the selected directories that are not loaded, in selection order |
| Runtime.AppendLoadedSkillDir | backend/internal/agentruntime/runtime.go:881-891 | the loop and the sort compute `AddLoadedSkillDir`: the list as it is if it has the directory, otherwise sorted with it |
| RuntimeSteps.AddLoadedKeepsValid | backend/internal/agentruntime/runtime.go:881-891 | adding a selected directory keeps the list strictly ascending and adds exactly that directory |
| Runtime.ValidateConfiguration | backend/internal/agentruntime/runtime.go:925-969 | accepts exactly at most eight skills with bounded directories in strictly ascending order |
| Clarification.ValidateRequest | backend/internal/agentruntime/decision.go:212-237 | trims identities, prompts and options first, then accepts exactly one to three bounded questions with distinct ids and options that fit their kind, under a valid contract, and returns the trimmed request |
| Clarification.ValidateRecord | backend/internal/agentruntime/clarification.go:194-219 | trims a copy of the request, then accepts exactly the records with at most one answer per question, each its own canonical form, complete if asked |
| Clarification.CheckQuestion | backend/internal/agentruntime/decision.go:220-235 | accepts exactly a trimmed question that is bounded, has options that fit its kind and an id not seen before |
| Clarification.CheckOptions | backend/internal/agentruntime/decision.go:239-267 | after trimming, accepts exactly two to six bounded options with distinct ids for a choice and none for free text |
| Clarification.ValidIsTrimmed | backend/internal/agentruntime/decision.go:212-267 | a request that is valid as stored has nothing left to trim |
| Clarification.TrimExactly | backend/internal/agentruntime/decision.go:212-267 | trimming a request trims each of its texts and changes nothing else |
| Clarification.RequestExactly | backend/internal/agentruntime/decision.go:212-267 | the trimmed requests that are valid, on their fields: one to three distinct questions, two to six distinct options for a choice, none for free text |
| Clarification.AnswersComplete | backend/internal/agentruntime/clarification.go:259-269 | a record is complete exactly when it has an answer for each question and no other |
| Clarification.CompletedExactly | backend/internal/agentruntime/clarification.go:221-232 | a completed record has one answer for each question, and one of the questions completed it |
| Clarification.CollectSelected | backend/internal/agentruntime/clarification.go:169-180 | collects the trimmed ids unless one is blank or repeated |
| Clarification.CanonicalSelectedOptions | backend/internal/agentruntime/clarification.go:169-192 | the selection in the order of the offer, or nothing if an id is blank, repeated or not offered |
| Clarification.CanonicalOptionsIdempotent | backend/internal/agentruntime/clarification.go:169-192 | canonicalising a selection again changes nothing |
| Clarification.CanonicalAnswerIdempotent | backend/internal/agentruntime/clarification.go:126-167 | canonicalising an answer again changes nothing |
| Clarification.SelectionExactly | backend/internal/agentruntime/clarification.go:169-192 | a selection is taken exactly when no trimmed id is blank or repeated and all are offered; it is then the offered ids among them, in the order of the offer |
| Clarification.CanonicalAnswerExactly | backend/internal/agentruntime/clarification.go:126-167 | the answer taken for each kind of question: exactly one thing for a single choice, one to the limit for a multiple choice, a bounded text for free text; the custom text is kept, trimmed |
| Clarification.UnaskedIsRefused | backend/internal/agentruntime/clarification.go:126-130 | an answer to a question that was not asked is refused |
| Clarification.UpsertAnswer | backend/internal/agentruntime/clarification.go:271-284 | the map-based upsert computes the record in question order |
| Clarification.UpsertThenLookup | backend/internal/agentruntime/clarification.go:271-284 | after an upsert a lookup finds the new answer, every other question keeps its own, the record stays valid, and it is complete exactly when all others were answered |
| Clarification.InQuestionOrderHolds | backend/internal/agentruntime/clarification.go:271-284 | the ordered record holds exactly one answer per answered question |
| Clarification.AnswersFollowQuestions | backend/internal/agentruntime/clarification.go:271-284 | the answers stand in the order of the questions |
| Delivery.Validate | backend/internal/agentruntime/delivery.go:80-192 | the flag-and-loop validation accepts exactly the contracts of the declarative `ValidDelivery` |
| Delivery.Equal | backend/internal/agentruntime/delivery.go:61-78 | comparing field by field is equality |
| Delivery.VerifyDelivery | backend/internal/agentruntime/delivery.go:194-255 | the loop over criteria and grouped artifacts computes `Verify` |
| Delivery.GroupArtifacts | backend/internal/agentruntime/delivery.go:198-204 | groups the artifacts by kind exactly when all of them keep their rules |
| Delivery.CheckCriterion | backend/internal/agentruntime/delivery.go:205-249 | a criterion is satisfied exactly when the evidence meets it |
| Delivery.VerdictExactly | backend/internal/agentruntime/delivery.go:194-255 | each of the three verdicts exactly when: rules broken, some criterion unmet, all met; the missing list is exactly the unmet criteria |
| Delivery.RationaleExactly | backend/internal/agentruntime/delivery.go:194-255 | the rationale says which rule decided, and criteria are listed exactly when evidence falls short |
| Delivery.UnmetSplits | backend/internal/agentruntime/delivery.go:205-249 | missing criteria stand in the order of the contract |
| Delivery.RequiredArtifactsAreWitnessed | backend/internal/agentruntime/delivery.go:80-255 | satisfied evidence holds a concrete witness for every required artifact kind |
| Delivery.MetExactly | backend/internal/agentruntime/delivery.go:205-249 | among artifacts that keep their rules each of the nine criteria comes down to stated fields: an answer that is not blank, the current revision of the named canvas, or an artifact of the kind that is approved, published, task-backed or bound as the criterion asks |
| Delivery.ArtifactExactly | backend/internal/agentruntime/delivery.go:257-287 | the artifacts that keep their rules, by what they have: a revision or only an address, a publication, a ready resource, a place on the canvas |
| Delivery.SatisfiedShows | backend/internal/agentruntime/delivery.go:194-255 | satisfied evidence shows, for every criterion, the artifact it asks for by its fields |
| Delivery.ContractExactly | backend/internal/agentruntime/delivery.go:80-192 | the contracts accepted, on their fields |
| ProductionGraph.ValidateProductionGraph | backend/internal/agentruntime/production_graph.go:51-124 | accepts exactly the well-formed drafts without a cycle, and reports a cycle exactly for the other well-formed ones |
| ProductionGraph.CheckStages | backend/internal/agentruntime/production_graph.go:59-80 | accepts exactly valid stages with distinct keys and knows the keys |
| ProductionGraph.CheckDependencies | backend/internal/agentruntime/production_graph.go:85-99 | accepts exactly distinct dependencies on other known stages; the check for blanks adds nothing |
| DependencyGraph.ProcessesAll | backend/internal/agentruntime/production_graph.go:82-123 | Kahn processes all nodes if and only if the dependency relation is acyclic |
| DependencyGraph.EmptyQueueDecides | backend/internal/agentruntime/production_graph.go:108-123 | with an empty queue either the processed order is topological and complete, or the rest holds a cycle |
| DependencyGraph.LeftOverIsCyclic | backend/internal/agentruntime/production_graph.go:120-122 | nodes left unprocessed contain a cycle |
| DependencyGraph.BuildDependents | backend/internal/agentruntime/production_graph.go:199-208 | the table lists the dependents of each key in declaration order |
| Reachability.TopologicalIsAcyclic | backend/internal/agentruntime/production_graph.go:108-123 | an order with dependencies first leaves no cycle |
| Reachability.EndlessSetHasCycle | backend/internal/agentruntime/production_graph.go:120-122 | nodes that each depend on another one of them lie on a cycle |
| DependencyGraph.CountDependencies | backend/internal/agentruntime/production_graph.go:82-100 | the counts are the numbers of missing dependencies |
| DependencyGraph.Release | backend/internal/agentruntime/production_graph.go:113-118 | telling the dependents of a processed key lowers exactly their counts and queues exactly those that reach zero |
| StaleClosure.MarkWhenTaken | backend/internal/agentruntime/production_graph.go:213-230 | the search that marks on removal yields exactly the strict transitive dependents in declaration order |
| StaleClosure.MarkWhenPushed | backend/internal/agentruntime/production_graph.go:276-291 | the search that marks on insertion yields exactly what the roots lead to, without the exempt ones |
| ProductionGraph.StaleDependentStages | backend/internal/agentruntime/production_graph.go:191-231 | the stale stages or the error, for every draft and key |
| ProductionGraph.StaleStagesExactly | backend/internal/agentruntime/production_graph.go:191-231 | the result holds exactly the stages that depend on the changed one by one or more edges, each once, never the changed one |
| ProductionGraph.StaleStagesForRevisionChanges | backend/internal/agentruntime/production_graph.go:301-354 | the stale stages or the error, for every draft and list of revisions |
| ProductionGraph.CollectHits | backend/internal/agentruntime/production_graph.go:319-335 | the stages first marked and queued are exactly those with a changed input |
| ProductionGraph.RevisionChangeIsUnionOfStageChanges | backend/internal/agentruntime/production_graph.go:301-354 | the result is the hit stages together with the stages that become stale when one of them changes |
| ProductionGraph.StaleDependentRevisions | backend/internal/agentruntime/production_graph.go:233-299 | the stale revisions or the error, missing dependency lists, duplicates, unknown references and cycles included |
| ProductionGraph.TabulateRevisions | backend/internal/agentruntime/production_graph.go:240-249 | accepts exactly valid nodes with distinct revisions and tabulates their dependencies |
| ProductionGraph.StaleRevisionsExactly | backend/internal/agentruntime/production_graph.go:276-298 | the result holds exactly what some changed revision leads to, except the changed ones, each once |
| GraphOutcomes.VerdictExactly | backend/internal/agentruntime/production_graph.go:51-124 | a draft is accepted if and only if its stages are in form, field by field, and no walk along dependencies leads from a stage to itself; in form with such a walk it is cyclic |
| GraphOutcomes.StaleAfterStageExactly | backend/internal/agentruntime/production_graph.go:191-231 | a stage becomes stale if and only if a walk of dependencies leads from the changed one to it |
| GraphOutcomes.UnknownStageIsRefused | backend/internal/agentruntime/production_graph.go:191-198 | a change of a stage the draft does not have is refused |
| GraphOutcomes.StaleAfterRevisionsExactly | backend/internal/agentruntime/production_graph.go:301-354 | a change of revisions is accepted if and only if it is in form; a stage becomes stale if and only if it takes one of them or depends in the end on a stage that does |
| GraphOutcomes.RevisionVerdictExactly | backend/internal/agentruntime/production_graph.go:233-275 | which revision lists are invalid, which are cyclic and which are accepted |
| GraphOutcomes.StaleRevisionExactly | backend/internal/agentruntime/production_graph.go:276-298 | a revision becomes stale if and only if it is not itself changed and a walk of sources leads from a changed one to it |
| CycleSearch.Search.Visit | backend/internal/agentruntime/production_graph.go:366-381 | one visit answers true only on a cycle, otherwise finishes the key with its dependencies first; it terminates because every call colours a new key |
| CycleSearch.ContainsCycle | backend/internal/agentruntime/production_graph.go:356-388 | true if and only if the graph has a cycle |
| CycleSearch.ContainsCycleAnyOrder | backend/internal/agentruntime/cinematic_schema.go:462-493 | the same when the keys come in any order, as from a map |
| CycleSearch.EdgesIgnoreOrder | backend/internal/agentruntime/production_graph.go:382-387 | permuting the nodes leaves the graph, and with it the answer, unchanged |
| CameraTree.ValidateCameraTree | backend/internal/agentruntime/cinematic_schema.go:355-460 | accepts exactly the trees of `Accepted`; a self-reference or a cycle is named exactly when it is what the checks come across first |
| CameraTree.CheckCameras | backend/internal/agentruntime/cinematic_schema.go:371-387 | reads cameras up to the first fault and tells a self-reference from other faults |
| CameraTree.CheckLinks | backend/internal/agentruntime/cinematic_schema.go:387-409 | parents exist, dependent cameras are not independent, no shot is assigned twice or unknown |
| CameraTree.CheckRootsAgree | backend/internal/agentruntime/cinematic_schema.go:416-422 | several roots must all be independent |
| CameraTree.CheckRelations | backend/internal/agentruntime/cinematic_schema.go:426-443 | accepts exactly relations between two different existing cameras on given evidence, with distinct keys |
| CameraTree.CheckGaps | backend/internal/agentruntime/cinematic_schema.go:444-458 | accepts exactly gaps about existing cameras, with distinct keys |
| CameraTree.ForestExactly | backend/internal/agentruntime/cinematic_schema.go:462-493 | in a linked tree the parent links are free of cycles if and only if every camera hangs under a root |
| CameraTree.NoRootIsCycle | backend/internal/agentruntime/cinematic_schema.go:410-415 | without a root a linked tree is always refused as cyclic |
| CameraTree.OneCameraPerShot | backend/internal/agentruntime/cinematic_schema.go:387-416 | in an accepted tree each shot belongs to exactly one camera, once |
| CameraTree.AcceptedTreeIsForest | backend/internal/agentruntime/cinematic_schema.go:387-425 | in an accepted tree every camera hangs under a root, dependent cameras are not independent, several roots all are |
| CameraTree.SingleCameraIsAccepted | backend/internal/agentruntime/cinematic_schema.go:355-460 | one root camera that owns the one shot is accepted, so acceptance is not empty |
| CameraOutcomes.AcceptedExactly | backend/internal/agentruntime/cinematic_schema.go:355-460 | a tree is accepted if and only if its fields are in form, its shots are dealt out once each, several roots are all independent, and a line of parents leads from a root to every camera |
| CameraOutcomes.SelfReferenceExactly | backend/internal/agentruntime/cinematic_schema.go:371-387 | a self-reference is reported exactly when a camera is its own parent and everything before it is in form |
| CameraOutcomes.CycleExactly | backend/internal/agentruntime/cinematic_schema.go:387-425 | a cycle is reported exactly when everything checked before is in order and some camera hangs under no root |
| CameraOutcomes.LinesExactly | backend/internal/agentruntime/cinematic_schema.go:462-493 | in a linked tree there is no cycle if and only if a line of parents leads from a root to every camera |
| Progress.BuildProductionProgress | backend/internal/agentruntime/production_progress.go:161-195 | the projection for valid facts, the error for all others; the fields of the projection are in `ProgressOutcomes.ProjectionExactly` and `ProgressOutcomes.ActionsExactly` |
| Progress.CheckStages | backend/internal/agentruntime/production_progress.go:174-253 | accepts exactly the stages that depend on earlier ones only and tabulates which are completed |
| Progress.IsCompleted | backend/internal/agentruntime/production_progress.go:197-212 | a stage counts as completed exactly when its status, delivery, tasks and billings all say so |
| Progress.CheckDependencies | backend/internal/agentruntime/production_progress.go:223-235 | accepts exactly distinct dependencies on preceding stages |
| Progress.VerifyProgress | backend/internal/agentruntime/production_progress.go:317-328 | the delivery is checked with exact revisions taken as approved while the stage runs or awaits review |
| Progress.AppendBlocker | backend/internal/agentruntime/production_progress.go:372-387 | the loop over the list adds one reference under one code |
| Progress.CollectExactly | backend/internal/agentruntime/production_progress.go:372-396 | codes stay unique, references strictly ascending, and the list holds exactly what was raised |
| Progress.BlockersOf | backend/internal/agentruntime/production_progress.go:255-315 | the loops over dependencies, tasks, billings and missing criteria collect exactly what is raised, and sort the reference lists |
| Progress.FindResourceRefs | backend/internal/agentruntime/production_progress.go:354-370 | a missing resource points at the artifacts of its kind, or at the stage |
| Progress.RefLessIsStrictTotal | backend/internal/agentruntime/production_progress.go:389-396 | the comparison of references is a strict total order, so sorting has one result |
| Progress.RaisedExactly | backend/internal/agentruntime/production_progress.go:255-315 | what is raised for a stage is exactly what blocks it, code by code |
| Progress.BlockersExactly | backend/internal/agentruntime/production_progress.go:255-315 | the blockers of the current stage are canonical and hold exactly the pairs of `Blocks` |
| Progress.IncompleteDependenciesAreStopped | backend/internal/agentruntime/production_progress.go:183-192 | at the current stage the incomplete dependencies are exactly its stopped ones |
| Progress.UnblockedExactly | backend/internal/agentruntime/production_progress.go:255-315 | nothing blocks the current stage exactly when no dependency is stopped and its own tasks, billings, delivery and review let it pass |
| Progress.NothingToDoExactly | backend/internal/agentruntime/production_progress.go:183-194 | neither a blocker nor an action is offered if and only if no stage is left, or the current one is completed with everything in order but some billing refunded |
| ProgressOutcomes.FactsExactly | backend/internal/agentruntime/production_progress.go:161-253 | facts are accepted if and only if they name a version and a time and hold stages in form, field by field, with keys of their own, each depending only on earlier ones |
| ProgressOutcomes.CurrentExactly | backend/internal/agentruntime/production_progress.go:174-195 | the current stage is the first one that is neither stopped nor completed with all of its evidence in order |
| ProgressOutcomes.ActionsExactly | backend/internal/agentruntime/production_progress.go:330-348 | for valid facts: with a blocker nothing is offered; without one, exactly execution for a planned, failed or stale stage, submission for a running one, review for one awaiting it and completion for an approved one, with the completion criteria as evidence |
| ProgressOutcomes.PlannedStageRuns | backend/internal/agentruntime/production_progress.go:330-348 | under every valid contract one planned stage that depends on nothing is accepted and may be executed |
| ProgressOutcomes.ProjectionExactly | backend/internal/agentruntime/production_progress.go:174-195 | the projection names the current stage, its status and review revision; its task and stale references are the active tasks and the listed ids, by membership and in order |
| ProgressOutcomes.NothingLeftExactly | backend/internal/agentruntime/production_progress.go:174-195 | with every stage left behind the projection names none and lists nothing |
| ProgressOutcomes.BlockedExactly | backend/internal/agentruntime/production_progress.go:255-315 | which reference blocks the current stage under which code, on the fields of dependencies, tasks, billings, evidence and review |
| ProgressOutcomes.ResourceRefsExactly | backend/internal/agentruntime/production_progress.go:354-370 | a missing resource points at each artifact of its kind by its own references, or at the stage if there is none |
| ProgressOutcomes.DeliveryStateExactly | backend/internal/agentruntime/production_progress.go:317-328 | the evidence counted: every artifact as it is, except that exact revisions are approved while the stage runs or awaits review |
| ProgressOutcomes.RefOrder | backend/internal/agentruntime/production_progress.go:389-396 | references are ordered by kind and then by identity |
| DecisionStream.Observer.Push | backend/internal/agentruntime/decision_stream.go:28-51 | one push on the mutable observer is `Observe` |
| DecisionStream.PushFitsExactly | backend/internal/agentruntime/decision_stream.go:28-32 | a push is refused as too large exactly when the text read so far and the delta exceed the limit together |
| DecisionStream.ScanDirectField | backend/internal/agentruntime/decision_stream.go:97-136 | the index loop finds the value of the key exactly where the scan on the remaining text does |
| DecisionStream.DirectStringField | backend/internal/agentruntime/decision_stream.go:66-95 | decodes the string value of the key as far as it is written |
| DecisionStream.ScanStringToken | backend/internal/agentruntime/decision_stream.go:138-152 | reads up to the first unescaped quote, or not at all |
| DecisionStream.DirectObjectField | backend/internal/agentruntime/decision_stream.go:57-64 | finds the inside of the object under the key |
| DecisionStream.ScanGrows | backend/internal/agentruntime/decision_stream.go:97-136 | once found, the beginning of a value stays found at the same place however the text goes on |
| DecisionStream.VisibleGrows | backend/internal/agentruntime/decision_stream.go:28-51 | a longer text shows an extension of the message of a shorter one |
| DecisionStream.StreamIsMonotonic | backend/internal/agentruntime/decision_stream.go:28-51 | for any text in any chunks no push fails as not monotonic, the outputs together are what was released, and equal the message whenever the text shows one |
| JsonText.UnquoteExactly | backend/internal/agentruntime/decision_stream.go:90-94 | the decoding of a JSON string literal agrees with section 7 of RFC 8259 if and only if it has no escaped slash and no surrogate escape; otherwise it fails |
| JsonText.UnquoteAppend | backend/internal/agentruntime/decision_stream.go:90-94 | decoding a text goes on where a decoded front part ends |
| JsonOutcomes.EncodeExactly | backend/internal/agentruntime/decision_stream.go:90-94 | a character is read back from its UTF-8 encoding, in the shortest form (section 3 of RFC 3629) |
| JsonOutcomes.HexExactly | backend/internal/agentruntime/decision_stream.go:90-94 | the sixteen hexadecimal digits in both cases and their values |
| JsonOutcomes.UnicodeExactly | backend/internal/agentruntime/decision_stream.go:90-94 | four digits behind a u stand for the character they number, unless it is a surrogate, which fails |
| JsonOutcomes.LetterExactly | backend/internal/agentruntime/decision_stream.go:90-94 | the bytes of the nine letter escapes |
| JsonOutcomes.HexByteExactly | backend/internal/agentruntime/decision_stream.go:90-94 | two digits behind an x stand for one byte |
| JsonOutcomes.OctalByteExactly | backend/internal/agentruntime/decision_stream.go:90-94 | three octal digits stand for one byte, if it is one, and fail otherwise |
| JsonOutcomes.PlainExactly | backend/internal/agentruntime/decision_stream.go:90-94 | any other character stands for itself; a bare quote or line feed fails |
| DecisionDocument.ScanFinds | backend/internal/agentruntime/decision_stream.go:97-136 | among the members of an object the scan stops at the first member with the key, not at a value spelled like it, unless a string before it does not decode |
| DecisionDocument.DocumentShowsMessage | backend/internal/agentruntime/decision_stream.go:33-44 | a whole final decision shows its decoded message exactly when the strings before the three fields decode, the kind means final and the message decodes |
| DecisionDocument.FrontShowsFront | backend/internal/agentruntime/decision_stream.go:33-44 | any front part that shows a message shows its first pieces, and its kind reads final as far as it is written |
| DecisionDocument.StreamOfDocument | backend/internal/agentruntime/decision_stream.go:28-51 | however a final decision is cut, the outputs are a front part of its decoded message, and all of it when the whole text shows it |
| DecisionDocument.ReadsEverything | backend/internal/agentruntime/decision_stream.go:29-32 | while the text fits the limit the observer has read all of it |
| DecisionDocument.ReleasedThoughNotFinal | backend/internal/agentruntime/decision_stream.go:33-36 | a message is released although the kind is not final, if a chunk ends where the kind reads final: the kind is compared before its closing quote is seen |
| DecisionRelease.VisibleExactly | backend/internal/agentruntime/decision_stream.go:28-51 | what any whole document shows: the message taken for `final.message`, exactly when it is a string that decodes, the kind means final and the strings before them decode |
| DecisionRelease.OutputsAreOfMessage | backend/internal/agentruntime/decision_stream.go:28-51 | however any document is cut, the outputs are a front part of the message taken, and all of it when the whole text shows it |
| DecisionRelease.ReleasesExactly | backend/internal/agentruntime/decision_stream.go:28-51 | some way of cutting a document makes the observer release something if and only if: with the message before the kind, the message decodes whole and the kind begins like final; with the kind first, it means final and the first piece of the message decodes; and the message is not empty and the strings before decode |
| DecisionRelease.NotFinalReleasesExactly | backend/internal/agentruntime/decision_stream.go:33-36 | of a decision whose kind is not final something is released under some cut if and only if the kind begins like final, `final` stands before `kind`, the strings before the kind decode and the message is not empty |
| DecisionRelease.KindFirstIsSafe | backend/internal/agentruntime/decision_stream.go:33-36 | a document that writes its kind before `final` releases something only if the kind means final |
| DecisionRelease.FinalMessageExactly | backend/internal/agentruntime/decision_stream.go:37-44 | under every cut only a front part of `final.message` is released, if and only if `final` holds a message or nothing is released at all |
| DecisionRelease.ForeignMessageExactly | backend/internal/agentruntime/decision_stream.go:97-136 | with no message in `final`, a whole document shows one if and only if the kind means final and the first later member that is an object with a message holds a string there that decodes, and the strings before it decode |
| DecisionRelease.ForeignMessageIsShown | backend/internal/agentruntime/decision_stream.go:97-136 | a document whose `final` is empty shows the message of another member: the scan does not stop at the closing brace |
| DecisionRelease.ForeignMessageIsReleased | backend/internal/agentruntime/decision_stream.go:37-51 | so a message that is not the one of `final` is released |
| DecisionRelease.FrontScan | backend/internal/agentruntime/decision_stream.go:97-136 | what a scan finds before the last part of a text it also finds without that part |
| DecisionRelease.ScanNested | backend/internal/agentruntime/decision_stream.go:97-136 | one level above the wanted one, the scan stops at the first member whose object holds the key, unless a string before it does not decode |
| CanvasSession.CanvasSession.RequestTool | canvas-agent/src/canvas-session.ts:68-134 | accepts a request under a new ticket or throws, with the exact new tables; when it accepts is in `SessionOutcomes.RequestAcceptsExactly` |
| CanvasSession.CanvasSession.ResolveToolResult | canvas-agent/src/canvas-session.ts:136-157 | settles, ignores a replay or throws, with the exact new tables |
| CanvasSession.CanvasSession.Disconnect | canvas-agent/src/canvas-session.ts:159-170 | settles everything pending once and remembers the first reason |
| CanvasSession.CanvasSession.FinishPending | canvas-agent/src/canvas-session.ts:179-194 | moves one request from pending to completed |
| CanvasSession.CanvasSession.Evict | canvas-agent/src/canvas-session.ts:189-193 | the eviction loop leaves exactly the newest 4096 entries |
| CanvasSession.CanvasSession.Expire | canvas-agent/src/canvas-session.ts:172-177 | a timer, an abort or a late emit failure settles the request if it is still pending and does nothing otherwise |
| SessionModel.RunsStayValid | canvas-agent/src/canvas-session.ts:68-194 | whatever the interleaving: pending and completed ids are disjoint, tables have distinct keys, tickets are conserved, nothing is pending after a disconnect |
| SessionModel.StepKeepsValid | canvas-agent/src/canvas-session.ts:68-194 | each single event keeps the session valid |
| SessionModel.SettledAtMostOnce | canvas-agent/src/canvas-session.ts:172-194 | every accepted request is either pending or settled, never both, and settled once |
| SessionModel.FirstEventSettles | canvas-agent/src/canvas-session.ts:85-177 | a pending request is settled by whichever of its events comes first, in its own way |
| SessionModel.DisconnectSettlesForever | canvas-agent/src/canvas-session.ts:159-170 | after a disconnect all accepted requests are settled, nothing is ever pending again and every request is refused |
| SessionModel.CompletedAreNewest | canvas-agent/src/canvas-session.ts:187-193 | the completed table is exactly the last min(n, 4096) completions |
| SessionModel.ReplayWithinWindow | canvas-agent/src/canvas-session.ts:139-143 | within that window the very same result changes nothing and any other is a conflict |
| SessionOutcomes.DisconnectedExactly | canvas-agent/src/canvas-session.ts:159-170 | a session is disconnected if and only if it was told so with a reason that is not blank |
| SessionOutcomes.RequestAcceptsExactly | canvas-agent/src/canvas-session.ts:68-98 | after any events a request is accepted if and only if nothing has disconnected the session, its three ids are not empty, its id neither pends nor is among the newest 4096 completions, and it is not aborted; every refusal is named |
| SessionOutcomes.AcceptedIsPending | canvas-agent/src/canvas-session.ts:68-98 | an accepted request goes last in the table of pending ones, under the next ticket, and nothing else changes |
| SessionOutcomes.FailedEmitSettles | canvas-agent/src/canvas-session.ts:99-134 | if the event sink fails, the request is settled at once as rejected and no longer pends |
| SessionOutcomes.UnknownResult | canvas-agent/src/canvas-session.ts:136-146 | a result for a request neither pending nor recently settled is refused |
| SessionOutcomes.PendingResult | canvas-agent/src/canvas-session.ts:136-157 | a result settles a pending request with that very result if and only if thread, turn and tool agree; otherwise the first difference is the error |
| SessionOutcomes.SettledResult | canvas-agent/src/canvas-session.ts:139-143 | a result for a request settled recently changes nothing: it is a repeat of that settlement or a conflict |
| SessionOutcomes.LateEventsDoNothing | canvas-agent/src/canvas-session.ts:172-177 | a timer, a signal or a late failure does nothing to a request that does not pend |
| SessionOutcomes.DisconnectExactly | canvas-agent/src/canvas-session.ts:159-170 | a blank reason is refused; the first other one is kept and settles all pending requests in order |
| SessionOutcomes.ResolvedSessionExists | canvas-agent/src/canvas-session.ts:68-157 | there are sessions that accept a request and settle it with its result |
| CodexTurn.FoldEvents | canvas-agent/src/codex-thread.ts:385-454 | the event loop computes the fold |
| CodexTurn.TurnService.ConsumeEvents | canvas-agent/src/codex-thread.ts:372-495 | the normalized events of the turn, the stored record, and the turn no longer active; which ending leaves which is in `CodexEndings.NotesExactly`, `CodexEndings.CancelledExactly` and `CodexEndings.FailedExactly` |
| CodexTurn.TurnService.FinalizeConsumedTurn | canvas-agent/src/codex-thread.ts:497-514 | the last event decides the stored status and failure |
| CodexTurn.ActiveExactly | canvas-agent/src/codex-thread.ts:386-398 | a tool call is active exactly when the last word on it is that it is in progress |
| CodexTurn.PendingExactly | canvas-agent/src/codex-thread.ts:392-404 | a decision is pending exactly when the stream has a last message said with no call in progress then or since; it is the parse of that message and no call is active |
| CodexTurn.UndisturbedExactly | canvas-agent/src/codex-thread.ts:385-454 | the fold is still going after some events exactly when none of them ended the turn, every thread id agrees with the record and every message said while no call ran parses |
| CodexTurn.CompletedExactly | canvas-agent/src/codex-thread.ts:415-448 | in terms of the events: the turn is stored as completed exactly when a turn.completed is reached undisturbed, after a last message that was said while no call ran and that no start of a call follows, and the parse of that message comes right before the completion |
| CodexTurn.CompletedTurnIsSettled | canvas-agent/src/codex-thread.ts:415-448 | the decision handed over is the parse of the last message, no call was running when it was said, none started after it and every started one ended |
| CodexTurn.OneTerminalNote | canvas-agent/src/codex-thread.ts:455-485 | every turn ends with exactly one terminal event, the last one |
| CodexEndings.EveryTurnEnds | canvas-agent/src/codex-thread.ts:385-485 | every turn ends in one of four ways: by a completion with a decision, by a failure event, by an event that throws, or with its source |
| CodexEndings.NotesExactly | canvas-agent/src/codex-thread.ts:372-495 | the notes of a turn: one for each event before its end, in order, and then the one its end leaves |
| CodexEndings.CancelledExactly | canvas-agent/src/codex-thread.ts:464-485 | a turn is stored as cancelled if and only if it was aborted and ended by an exception: of the first event that disturbs it, or of a source that throws undisturbed |
| CodexEndings.FailedExactly | canvas-agent/src/codex-thread.ts:449-514 | a turn is stored as failed with a message if and only if that message is the one of its failure event, of its exception without an abort, or of its ended stream |
| CodexEndings.RecordExactly | canvas-agent/src/codex-thread.ts:497-514 | a record keeps all notes, and whatever they are, the last one alone decides status and failure |
| MediaPlan.ValidateAudioPlan | backend/internal/agentruntime/media_plan.go:163-194 | accepts exactly the plans of `ValidAudioPlan`, without leaving int64 |
| MediaPlan.AudioClipsAreDisjoint | backend/internal/agentruntime/media_plan.go:171-192 | clips of an accepted audio plan never overlap |
| MediaPlan.ValidateAssemblyPlanV2 | backend/internal/agentruntime/media_plan.go:231-302 | accepts exactly the plans of `Accepted`, without leaving int64 |
| MediaPlan.CheckAudioClips | backend/internal/agentruntime/media_plan.go:168-192 | accepts exactly clips on the timeline, one after the other, with distinct keys |
| MediaPlan.CheckClips | backend/internal/agentruntime/media_plan.go:238-269 | accepts exactly valid clips with distinct keys and transitions shorter than both clips they join |
| MediaPlan.CheckTracks | backend/internal/agentruntime/media_plan.go:283-298 | accepts exactly tracks that end within twelve hours, with distinct keys |
| MediaPlan.CheckOutput | backend/internal/agentruntime/media_plan.go:367-380 | accepts exactly even sides up to 8192 within the pixel bound and the codecs of the mode |
| MediaPlan.CheckTotal | backend/internal/agentruntime/media_plan.go:270-280 | the running sum stays in range and accepts exactly totals of at most twelve hours |
| MediaPlan.TimelineAdvances | backend/internal/agentruntime/media_plan.go:270-280 | in every accepted plan each contribution is positive, starts and ends strictly increase, and the last end is the total, at most twelve hours |
| MediaPlan.NeighboursOverlap | backend/internal/agentruntime/media_plan.go:250-269 | neighbours overlap by exactly the transition between them |
| MediaPlan.OnlyNeighboursOverlap | backend/internal/agentruntime/media_plan.go:250-269 | clips that are no neighbours never play together if and only if the two transitions of every inner clip fit into it |
| MediaPlan.ThreeClipsMayOverlap | backend/internal/agentruntime/media_plan.go:250-269 | an accepted plan in which the first clip still plays when the third begins |
| MediaOutcomes.AudioExactly | backend/internal/agentruntime/media_plan.go:163-194 | an audio plan is accepted if and only if its fields are in form and each clip starts after the one before has ended, all on a timeline of twelve hours |
| MediaOutcomes.AssemblyExactly | backend/internal/agentruntime/media_plan.go:231-302 | an assembly plan is accepted if and only if clips, tracks and output are in form, field by field, and its clips, laid out one after the other less their transitions, end within twelve hours |
| Artifact.CheckRefs | backend/internal/agentruntime/artifact.go:675-687 | accepts exactly valid references to distinct artifacts |
| Artifact.ValidTextExactly | backend/internal/agentruntime/artifact.go:671-673 | a text is valid if and only if it is not empty, begins and ends without white space and is short enough in bytes |
| Text.TrimTakesSpaces | backend/internal/agentruntime/artifact.go:671-673 | trimming takes white space off both ends and nothing else |

## Left out

- Databases, HTTP, SSE, WebSocket and MCP plumbing, the web front end and deployment: input and output.
- The decoders of JSON payloads and of decisions (`ParseModelDecision`, strict decoding, media required fields): decoded values are datatypes; tool arguments are opaque values with a validity flag.
- SHA-256 fingerprints, idempotency keys and proposal hashes: opaque values compared for equality.
- The clock: times are integers passed in, zero being unset.
- In-place trimming: the checks of clarification requests, calls and final answers return or use the trimmed value instead; skill directories are taken as trimmed already.
- `Runtime.ValidateConfiguration`: does not model the checks of model selections, skill texts, manifests and attachments, which are one flag, because no transition looks at those fields; it refuses directories with blanks around them, which the code trims on its own copy and accepts.
- Tool schemas other than the current one, under which no decision passes, and the retired tools, which are a single name here.
- `ReplayResolvedTool` with a pending transition other than the one that advancing the same state returns.
- The order of blocker entries in the progress projection beyond what `Progress.Collect` fixes; character identities and shot bindings of the same file.
- Stage review commands and the table of stage status transitions: loop-free switches.
- Loops that the code merges are separate methods here (checking a graph and counting its dependencies; collecting hits and dependents; the three kinds of sections of a plan).
- `DecisionStreamObserver.Finish` and texts that are not valid UTF-8 or are cut inside a character.
- The timeout range check of the session's constructor; re-entrant calls from inside the event sink.
- A consumer that stops reading a Codex turn early, the start of turns, workspaces and attachments; closing the event source and saving a record are taken not to fail.
- `ValidateVideoPlan`, `ValidateAssemblyPlan` (the first version) and the other artifact schemas: single-branch checks.
