# Verified model of the agent layer

This project models the state machines, parsers and protocols of the agent backend
and proves what they promise:

- **Plan and execute.** `Digraph`, `ExecutionPlan`, `SynthesisCoverage`, `PlanInstall`,
  `PlanMachine`, `PlanInvariant`, `PlanRuns`, `PlanVersions`, `PlanFailures`, `PlanEffects`,
  `PlanSession`. A model proposes task graphs; `PlanInstall` merges and checks them as loops
  over tasks and maps; `PlanSession.Session` is the mutable session, one method per section held
  under its mutex. Every method is proved equal to a step of the transition function
  `PlanMachine.After`, and `PlanEffects` says what each step leaves behind;
  `PlanInvariant.StepKeeps` shows that every step keeps the invariant, and `PlanRuns` draws
  conclusions about whole runs with any interleaving of task starts, finishes, interrupts and
  resumes; `PlanFailures` follows refusals and sticky failures through them, `PlanVersions` the
  versions of plans and tasks. What a session method requires beyond its stage (unique task ids,
  a message on every failed tool result) is part of that invariant or of what the tool classifier
  returns (`internal/agent/deep_tool_result.go:54-57`).
- **Citation rewriter.** `CitationScan` is the scanner as a step function, `CitationStable`
  proves that the way a text is cut does not matter, `CitationStream` is the object with its
  bounded line tail and index loops. `CitationRender` says what a text should come out as,
  piece by piece and without the scanner, and when the scanner agrees. `CitationBound` has the
  decisions forced by the buffer bound, `CitationCuts` the cuts that one of them spoils,
  `CitationSafe` the texts that no cut spoils and `CitationUnsafe` a cut for every other text.
  `CitationSyntax` says character by character what the scanners find, `CitationPieces` what each
  kind of beginning comes out as and when the rewriter waits.
  `CitationGuarantees` holds the consequences, including the event loop.
- **Answer decoder.** `JsonText` is the whole-text decoding of JSON strings (section 7 of
  RFC 8259), `AnswerDecoder` the incremental decoder, `AnswerAgreement` says exactly when
  the two agree, and `JsonSpelling` what every way to write a text is decoded to.
- **Embedding queue.** `EmbeddingQueue` has one guarded step per SQL statement, any number of
  workers, crashes and clock ticks; `EmbeddingWorker` has the table object and the worker, and
  `EmbeddingEffects` says what every statement leaves behind.
- **Context and artifacts.** `SummaryCoverage` (racing refreshers of a running summary),
  `ToolHistory`, `HistoryShape` and `ContextShrink` (removing tool groups and turns), `LongestFit`,
  `ArtifactPager` and `ArtifactViews` (reading stored results), `ToolBudget`, `JsonPointer`,
  `ArtifactStore`, `CallBudget`.
- **Client cache.** `ClientCache`: a map and a list of shared entries that refine a plain
  recency list.

`dafny verify dfyconfig.toml` checks the whole project.

## Findings

Five promises of the source do not hold without a condition. Each has a concrete input, and
for each the exact condition is proved.

1. A backtick run that opens nothing is lost when it stands at the very end: the loop ends when
   no text is pending, so the branch that would emit the run as ordinary text
   (`internal/agent/citation_stream.go:71-77`) is not reached. It happens at the end of the
   text and, because labels are normalized as texts of their own
   (`internal/agent/citation_stream.go:202` and `:207`), at the end of a link label in the
   middle of an answer. `CitationRender.EndsInTicks` says on the text alone whether there is
   such a run; by `CitationRender.RightUnlessEndsInTicks` every text comes out as it should if
   and only if there is none. Inputs: `CitationGuarantees.TrailingBacktickIsLost` and
   `CitationGuarantees.LabelBacktickIsLost`.
2. Chunk invariance ends at the buffer bound (`internal/agent/citation_stream.go:134-142` and
   `:173-194`): `CitationBound.BeyondTheBound` has a text and a cut for every bound.
   `CitationSafe.CutSafe` says on the text alone which texts are safe, piece by piece up to a
   backtick run that opens nothing, after which a stream decides nothing any more. A tag, or the
   brackets and target of a link, must end before the bound is reached, or before the scanner
   gets to it because it still waits for the end of a line that may open a fence. One that never
   ends is harmless if only backticks follow what is decided about it. By
   `CitationUnsafe.SameExactlyWhenSafe` a text comes out the same however it is cut if and only
   if it is safe, provided that registered sources are shown as tags, as they are
   (`internal/agent/citation.go:209-214`). Texts whose tags and links stay below the bound are
   safe at a glance (`CitationSafe.ShortTagsAnyCut`).
3. A high surrogate escape takes a window of twelve bytes whatever follows. If the window
   ends inside a unit of the text, stream and saved answer differ or the stream fails
   (`AnswerAgreement.UnpairedDisagrees`); `AnswerAgreement.AgreesExactlyWhenTiled` is the
   exact condition.
4. A refresher reads the messages before the stored summary. If another refresher stores a
   summary in between whose last message is newer than those messages, the first one counts
   its segment on top of the stored count and moves the last covered message backwards
   (`SummaryCoverage.RaceBreaksCoverage`). `SummaryCoverage.RunExact`: coverage stays exact
   if and only if no such write takes effect.
5. Recent messages and summary are loaded side by side (`internal/service/context_service.go:77-98`).
   When the messages were read before the last covered one was written, it is not found among
   them and all of them stay, covered or not (`SummaryCoverage.CoveredMessagesRepeat`). By
   `SummaryCoverage.AppliedIsUncovered` covered messages are repeated exactly then.

The comment on unclosed backticks (finding 1), the comment on monotone coverage in
`internal/repository/summary_repository.go:36-46` (finding 4) and the one on covered messages in
`internal/service/context_service.go:509-513` (finding 5) promise more than the code does; the
model follows the code.

## Model

| member | source | states |
|---|---|---|
| Digraph.CycleSearch.Visit | internal/agent/deep_plan.go:115-134 | the recursive search over `visiting` and `visited` terminates on every graph, cyclic ones included; success closes the visited set under edges without a cycle through it, failure means that there is a cycle |
| Digraph.NewEdgesAcyclic | internal/agent/deep_plan_dependencies.go:5-34 | adding edges from one node to new targets leaves an acyclic graph acyclic if and only if no target reached that node before |
| Digraph.Ancestors | internal/agent/deep_plan.go:327-336 | the recursive walk returns exactly the ids reachable from the root |
| Digraph.MinimalMember | internal/agent/deep_plan.go:143-165 | in an acyclic graph every non-empty set has a member that reaches no other member, the reason why some waiting task can run |
| ExecutionPlan.Validate | internal/agent/deep_plan.go:75-140 | accepts exactly the plans whose fields are valid and whose edges are unique, refer to existing tasks and form no cycle |
| ExecutionPlan.BuildGraph | internal/agent/deep_plan.go:101-114 | builds the dependency table if and only if no dependency is repeated or unknown |
| ExecutionPlan.ReadyTasks | internal/agent/deep_plan.go:143-165 | returns, in plan order, exactly the waiting tasks all of whose dependencies succeeded |
| ExecutionPlan.ReadyUnlessNothingWaits | internal/agent/deep_plan.go:143-165 | deadlock freedom: in an acyclic settled plan without dependencies on dead tasks, nothing is ready if and only if nothing waits |
| ExecutionPlan.TrimMeans | internal/agent/deep_plan.go:401-402 | trimming cuts off all the white space around a text and nothing else |
| ExecutionPlan.BlankMeans | internal/agent/deep_plan.go:75-90 | a text counts as blank exactly when it is all white space |
| ExecutionPlan.SpacesAre | internal/agent/deep_plan.go:401-402 | white space is that of Unicode |
| SynthesisCoverage.CompleteSynthesisDependencies | internal/agent/deep_plan_dependencies.go:5-34 | the in-place completion turns the task array into the completed plan and changes nothing when the synthesis is not pending |
| SynthesisCoverage.CompletionIsLocal | internal/agent/deep_plan_dependencies.go:5-34 | only the one pending synthesis changes, only by fresh distinct dependencies appended at the end, and the graph gains exactly those edges |
| SynthesisCoverage.CompletionCovers | internal/agent/deep_plan_dependencies.go:5-34 | afterwards the synthesis reaches every research task that has not failed or been canceled |
| SynthesisCoverage.CompletionAcyclic | internal/agent/deep_plan_dependencies.go:5-34 | the completed graph is acyclic if and only if no appended task reached the synthesis before |
| PlanInstall.AdoptTask | internal/agent/deep_plan.go:249-291 | the rules for one proposed task: an ended task must be unchanged and keeps its record, a refused session keeps its research tasks, everything else becomes pending |
| PlanInstall.MergeProposal | internal/agent/deep_plan.go:249-298 | the loop accepts exactly the proposals without repeated ids whose tasks may all be adopted, and computes the merged list, the active tasks, the newest synthesis and whether new research arrives |
| PlanInstall.RetainHistory | internal/agent/deep_plan.go:299-306 | tasks the proposal left out stay in the plan, canceled unless they had ended |
| PlanInstall.LatestSynthesisIsNewest | internal/agent/deep_plan.go:291-297 | the synthesis picked by the loop is a live one with the highest version |
| PlanInstall.CheckCoverage | internal/agent/deep_plan.go:347-360 | accepts exactly when every live research task is an ancestor of the synthesis and no live task depends on a dead one |
| PlanInstall.CheckRetry | internal/agent/deep_plan.go:361-380 | the two passes over the results allow new research exactly when nothing was denied or blocked, no unsafe task failed, and the one retry is unused if there is an error; the flag is set exactly when there is one |
| PlanInstall.Install | internal/agent/deep_plan.go:222-390 | succeeds exactly for acceptable proposals; success yields the merged, completed plan and the retry flag, failure leaves the facts as they were |
| PlanInstall.NothingReadyMeansNothingPending | internal/agent/deep_plan.go:317-386 | once the earlier checks pass, no task is ready if and only if none is pending |
| PlanInstall.HistorySurvives | internal/agent/deep_plan.go:264-269 | tasks that had ended survive an installation unchanged, and no task id is lost |
| PlanInstall.NewTasksArePending | internal/agent/deep_plan.go:279-290 | whatever is new in the installed plan was proposed with the same agent and is still to be run |
| PlanVersions.ProposedBecomes | internal/agent/deep_plan.go:249-291 | what a proposed task is installed as: an ended task as it was, an unfinished one restarted under its old version, a new one under the new version |
| PlanVersions.LeftOutBecomes | internal/agent/deep_plan.go:299-306 | what was left out stays, canceled unless it had ended |
| PlanVersions.LeftOutInOrder | internal/agent/deep_plan.go:299-306 | and in the order of the old plan |
| PlanVersions.ReplanIsNewer | internal/agent/deep_plan.go:228-232 | a first plan has version 1, and a re-plan a version above the one it replaces |
| PlanVersions.InstalledPlanIs | internal/agent/deep_plan.go:222-238 | every other field of an installed plan: id, goal, phase, reason, round, and the strategy, sequential where parallel runs are off |
| PlanVersions.AdmittedWhen | internal/agent/deep_plan.go:249-290 | which proposed tasks are admitted: no change of an ended task, no change of unfinished research and no new external work after a refusal, only configured agents |
| PlanVersions.AcceptedProposal | internal/agent/deep_plan.go:308-383 | every accepted proposal has a reason for a re-plan, a limited number of unfinished tasks, a live synthesis, and only that one if it is direct |
| PlanInvariant.InitHolds | internal/agent/deep_plan.go:222-390 | the empty session satisfies the invariant |
| PlanInvariant.InstallKeeps | internal/agent/deep_plan.go:222-390 | an installation keeps the invariant: acyclic graph, no dangling edge, statuses that match results, succeeded tasks only on succeeded dependencies |
| PlanInvariant.BatchKeeps | internal/agent/deep_stage.go:43-55 | opening a round keeps the invariant and never finds an empty batch |
| PlanInvariant.StartKeeps | internal/agent/deep_task.go:72-121 | starting a task agent keeps the invariant |
| PlanInvariant.FinishKeeps | internal/agent/deep_task.go:242-264 | merging a task result, success, error or interrupt, keeps the invariant |
| PlanInvariant.FinishBatchKeeps | internal/agent/deep_stage.go:146-153 | closing a round keeps the invariant |
| PlanInvariant.CompleteKeeps | internal/agent/deep_stage.go:154-159 | accepting the final answer keeps the invariant |
| PlanInvariant.FailKeeps | internal/agent/deep_plan_execute.go:280-292 | the failure exit, which cancels unfinished tasks, keeps the invariant |
| PlanInvariant.StepKeeps | internal/agent/deep_stage.go:33-189 | every enabled event keeps the invariant |
| PlanRuns.RunInvariant | internal/agent/deep_stage.go:33-189 | the invariant holds in every state of every run |
| PlanRuns.SuccessfulAncestors | internal/agent/deep_task.go:86-93 | everything a succeeded task depends on, directly or not, has succeeded |
| PlanRuns.HistoryIsPermanent | internal/agent/deep_plan.go:264-306 | over a run, tasks that ended and results that settled never change or disappear, and refusals and the used retry are never taken back |
| PlanRuns.OneTerminalResult | internal/agent/deep_task.go:81-85 | each task id gets at most one terminal result in a run |
| PlanRuns.OneRetry | internal/agent/deep_plan.go:361-380 | while an error result exists at most one installation in a run brings new research |
| PlanRuns.NoResearchAfterRefusal | internal/agent/deep_plan.go:362-365 | after a denied approval or a blocked permission no installation brings new research |
| PlanRuns.InstalledPlanCanRun | internal/agent/deep_plan.go:384-386 | whenever a plan has been installed its next batch is not empty |
| PlanRuns.ReadyInOrder | internal/agent/deep_plan.go:143-165 | the ready tasks are the waiting ones whose dependencies are all there and succeeded, in plan order |
| PlanRuns.BatchOfRound | internal/agent/deep_stage.go:43-55 | a round runs all of them if the plan is parallel, and otherwise the first one in plan order |
| PlanRuns.SuccessfulBatchLeavesReadyTask | internal/agent/deep_plan.go:143-165 | after a batch in which every task succeeded, a waiting task is ready again if any is left |
| PlanRuns.FinalSynthesisIsNewest | internal/agent/deep_plan.go:405-413 | the synthesis the answer rests on is a successful one with the highest version |
| PlanVersions.RunVersionsOk | internal/agent/deep_plan.go:228-290 | in every state of a run no task is newer than the plan |
| PlanVersions.BroughtVersion | internal/agent/deep_plan.go:279-281 | only installations bring tasks into a plan, with a version above every version before |
| PlanVersions.AnswerRestsOnLastInstalled | internal/agent/deep_plan.go:400-413 | the synthesis an answer rests on came with the last installation that brought one that succeeded |
| PlanRuns.AnswerIsCovered | internal/agent/deep_plan.go:400-434 | when a run accepts an answer, every successful research task is an ancestor of the newest successful synthesis, and all its ancestors succeeded |
| PlanFailures.ResultPrecedence | internal/agent/deep_task.go:225-256 | which result a task gets: waiting exactly on an interrupt without error, success exactly with an answer and no error, interrupt, sticky failure, uncorrected read or all-failed tools, an error otherwise; a sticky failure beats error and answer but not an interrupt, an error beats an interrupt and an uncorrected read, and failed tools are told in a successful summary |
| PlanFailures.RefusedNeverSucceeds | internal/agent/deep_task.go:349-415 | over every run, a task whose approval was rejected, that was blocked, or whose tool failed after a dangerous one never gets a successful result; if it ends, it ends with an error |
| PlanFailures.AnswerAvoidsRefused | internal/agent/deep_task.go:349-415 | when a run accepts an answer, the synthesis it rests on is no such task and depends on none |
| PlanEffects.GuardLeaves | internal/agent/deep_task.go:353-371 | a task that failed for good is stopped; a dangerous tool marks it unsafe, and a rejected approval denies the session |
| PlanEffects.ToolLeaves | internal/agent/deep_task.go:382-416 | what one tool result leaves: the correctable read, the tally, the sticky failure and the block |
| PlanEffects.AdmitsWhen | internal/agent/deep_task.go:72-93 | who may start: a batch task for its own role, not settled, not running unless resumed, with successful results for all its dependencies |
| PlanEffects.StartLeaves | internal/agent/deep_task.go:94-121 | a started task is running and in flight, and nothing else changes |
| PlanEffects.MergeLeaves | internal/agent/deep_plan.go:436-449 | a merged result is stored, and only its task takes status, reference and error or clipped summary from it |
| PlanEffects.RoundLeaves | internal/agent/deep_stage.go:43-55 | a round counts up and freezes its batch, or the run stops when there is nothing to run |
| PlanEffects.StageLeaves | internal/agent/deep_stage.go:138-189 | closing a round, interrupt and resumption only move phase, status and stage |
| PlanEffects.CompleteLeaves | internal/agent/deep_stage.go:154-159 | the answer is stored without the white space around it |
| PlanEffects.FailLeaves | internal/agent/deep_plan_execute.go:280-292 | the failure exit cancels exactly what had not ended |
| PlanSession.ValidateCompletion | internal/agent/deep_plan.go:400-434 | accepts exactly the non-blank answers over complete, fully covered work |
| PlanSession.Admission | internal/agent/deep_task.go:73-93 | admits exactly the batch tasks of the right role that have not ended, are not running unless resumed, and whose dependencies succeeded |
| PlanSession.MergeResult | internal/agent/deep_plan.go:436-449 | only the task of the result changes, and it takes status, clipped summary and reference from the result |
| PlanSession.Session.InstallPlan | internal/agent/deep_stage.go:138-145 | the session takes over an acceptable plan and is untouched by any other |
| PlanSession.Session.StartBatch | internal/agent/deep_stage.go:43-55 | the new round's batch is all ready tasks, or the first one unless the strategy is parallel |
| PlanSession.Session.StartTask | internal/agent/deep_task.go:72-121 | an admitted task becomes running; a refused one leaves the session unchanged |
| PlanSession.Session.FinishTask | internal/agent/deep_task.go:225-264 | the merged result follows outcome, sticky failures, uncorrected reads and tool progress, in that order of precedence |
| PlanSession.Session.Judge | internal/agent/deep_task.go:225-256 | the judged result waits exactly on an interrupt without error, succeeds exactly when nothing speaks against it, and takes the sticky failure as its error unless interrupted |
| PlanSession.Session.GuardTool | internal/agent/deep_task.go:355-371 | a dangerous tool marks the task unsafe, a rejected approval marks the session denied, and later tools do not run |
| PlanSession.Session.RecordTool | internal/agent/deep_task.go:389-415 | what a tool result records: correctable reads, progress, and failures; whoever had a failure keeps one |
| PlanSession.Session.FinishBatch | internal/agent/deep_stage.go:146-153 | closes exactly when every task of the batch has succeeded or failed |
| PlanSession.Session.Complete | internal/agent/deep_stage.go:154-159 | stores the trimmed answer exactly when the completion check accepts it |
| PlanSession.Session.Fail | internal/agent/deep_plan_execute.go:280-292 | cancels every unfinished task and closes the plan |
| PlanSession.Session.ValidateDelegation | internal/agent/deep_model.go:159-201 | accepts calls exactly when they name every unfinished batch task once under its own role, and no calls exactly when nothing is left and there is text |
| CitationStable.MoveStable | internal/agent/citation_stream.go:36-219 | a decision taken without waiting, short of the bound, is the decision on every longer input |
| CitationStable.RunSplit | internal/agent/citation_stream.go:23-221 | scanning a piece first and the rest later is scanning both at once, final or not |
| CitationStable.ChunkInvariance | internal/agent/citation_stream.go:23-320 | for every text and every way of cutting it, the pushed outputs together equal one normalization of the whole, as long as no push is forced by the bound |
| CitationStable.PrefixStable | internal/agent/citation_stream.go:251-263 | a tag prefix that is decided stays decided when text is appended |
| CitationStable.SpanEndStable | internal/agent/citation_stream.go:231-249 | a code span that closes before the end of the input closes there in every longer input |
| CitationStream.TailContinues | internal/agent/citation_stream.go:26-35 | the kept tail of at most four bytes continues to answer for the whole line |
| CitationStream.TailShowsFence | internal/agent/citation_stream.go:223-229 | four bytes of the current line decide the fence position exactly as the whole output does |
| CitationStream.CodeSpanEnd | internal/agent/citation_stream.go:231-249 | the index loop finds the first backtick run of the exact width |
| CitationStream.FindTagEnd | internal/agent/citation_stream.go:265-282 | the index loop finds the first `>` outside quotes |
| CitationStream.FindClosing | internal/agent/citation_stream.go:284-302 | the index loop finds the bracket that balances the first one |
| CitationStream.FindPrefix | internal/agent/citation_stream.go:251-263 | the loop over tag names classifies a tag prefix |
| CitationSyntax.TagNames | internal/agent/citation_stream.go:251-263 | a text is taken for a tag exactly when it begins, in any case, with one of the three names spelled out here and a delimiter follows; it may still become one exactly when it is a beginning of such a name |
| CitationSyntax.TagEndsFirst | internal/agent/citation_stream.go:265-282 | a tag ends with the first `>` that stands outside quotes, and never ends if there is none |
| CitationSyntax.QuoteOpen | internal/agent/citation_stream.go:265-282 | a quote is open at a place exactly when it was opened outside quotes before and the same mark has not come again |
| CitationSyntax.ClosesFirst | internal/agent/citation_stream.go:284-302 | a bracket is closed by the first unescaped closing one up to which as many are closed as opened, and by none if there is none |
| CitationSyntax.SpanEndsFirst | internal/agent/citation_stream.go:231-249 | a code span ends with the first run of exactly the opening width; while more text may come, a run the text ends in does not count |
| CitationStream.Stream.Push | internal/agent/citation_stream.go:23-221 | a push runs the scanner on pending plus new text and returns exactly what it emitted |
| CitationStream.NormalizeText | internal/agent/citation_stream.go:317-320 | one final push of a fresh stream is the normalization of the text |
| CitationRender.RightUnlessEndsInTicks | internal/agent/citation_stream.go:36-219 | every text, with escapes, code spans, fences, tags and links, comes out as its pieces should if and only if no backtick run that opens nothing ends the text or a shown link label; otherwise it comes out shorter |
| CitationRender.ScannerAgrees | internal/agent/citation_stream.go:36-219 | from any scanner state between two pieces the rest comes out right, or shorter exactly in that case |
| CitationPieces.TagRenders | internal/agent/citation_stream.go:134-170 | a complete tag of any of the three kinds, standing where a piece begins, comes out as the resolved tag, and the rest as if it stood alone |
| CitationPieces.TagResolved | internal/agent/citation_stream.go:36-219 | so does the tag at the beginning of an answer in the rewriter itself |
| CitationPieces.OpenTagRenders | internal/agent/citation_stream.go:134-142 | a tag that never ends comes out as the marker, with everything behind it |
| CitationPieces.NoTagRenders | internal/agent/citation_stream.go:129-133 | any other `<` is ordinary text |
| CitationPieces.PartOfNameRenders | internal/agent/citation_stream.go:119-128 | an unfinished name at the end of the text stays as it is |
| CitationPieces.AnchorRenders | internal/agent/citation_stream.go:198-203 | a link within the page stays, its label rewritten as a text of its own |
| CitationPieces.RegisteredRenders | internal/agent/citation_stream.go:204-205 | a registered link comes out as its source |
| CitationPieces.UnknownLinkRenders | internal/agent/citation_stream.go:206-209 | any other link comes out as its label and a marker |
| CitationPieces.OpenLinkRenders | internal/agent/citation_stream.go:189-197 | a target that never ends comes out as the marker, with everything behind it |
| CitationPieces.NoLinkRenders | internal/agent/citation_stream.go:171-188 | any other `[` is ordinary text |
| CitationPieces.EscapeRenders | internal/agent/citation_stream.go:80-86 | an escaped character stays and means nothing |
| CitationPieces.PlainRenders | internal/agent/citation_stream.go:211-217 | any other character stays as it is |
| CitationPieces.FenceRenders | internal/agent/citation_stream.go:87-118 | from a run of three or more with at most three spaces before it, up to the first line that closes it, nothing is touched |
| CitationPieces.FenceBodyStops | internal/agent/citation_stream.go:38-63 | the closing line is the first one with at most three spaces, a run no shorter than the opening one, and nothing visible behind it |
| CitationPieces.SpanRenders | internal/agent/citation_stream.go:64-70 | nothing is touched in a code span |
| CitationPieces.RunRenders | internal/agent/citation_stream.go:71-78 | a run that opens nothing is ordinary text |
| CitationPieces.IndentMeans | internal/agent/citation_stream.go:223-229 | the indentation is the number of spaces on a last line that holds nothing else |
| CitationPieces.WaitsExactly | internal/agent/citation_stream.go:36-219 | between two pieces the rewriter waits exactly as long as more text may change what comes next, and holds back nothing else |
| CitationPieces.SpanWaits | internal/agent/citation_stream.go:64-73 | in a code span it waits exactly for the closing run |
| CitationPieces.FenceWaits | internal/agent/citation_stream.go:38-42 | in a fence it waits exactly for the end of the line |
| CitationBound.SoundCut | internal/agent/citation_stream.go:36-219 | pushes that decide as the whole text does, or swallow what does not matter, together give one normalization of the text |
| CitationCuts.UnsoundCutSpoils | internal/agent/citation_stream.go:36-219 | conversely, a cut with any other push leads to one that changes the text |
| CitationSafe.SafeAnyCut | internal/agent/citation_stream.go:36-219 | a text that is safe by the condition on the text alone comes out the same however it is cut |
| CitationUnsafe.SameExactlyWhenSafe | internal/agent/citation_stream.go:36-219 | a text comes out the same however it is cut if and only if it is safe, for every text, bound and registry that shows its sources as tags |
| CitationSafe.ShortTagsAnyCut | internal/agent/citation_stream.go:134-142 | a text whose tags and links fit the buffer comes out the same however it is cut |
| CitationSafe.ShortTextAnyCut | internal/agent/citation_stream.go:134-142 | so does every text shorter than the bound |
| CitationBound.LongTagCut | internal/agent/citation_stream.go:134-142 | a complete tag that reaches the bound, cut before its end from any scanner state that comes to it by decisions the whole text makes too, comes out right if and only if it is shown as the marker and the cut-off end |
| CitationBound.LongTagInText | internal/agent/citation_stream.go:134-142 | the same for the tag behind any beginning of a text, such as a code span or a fence, cut in any way that decides as the whole text does |
| CitationBound.LongTagSpoils | internal/agent/citation_stream.go:134-170 | no registered source is shown that way, so wherever the scanner comes to a long tag the cut before its end spoils the text |
| CitationBound.LongLinkCut | internal/agent/citation_stream.go:171-209 | a complete link that reaches the bound, cut before its end, comes out right if and only if it is shown as the marker and the cut-off end |
| CitationBound.LongLinkInText | internal/agent/citation_stream.go:171-209 | the same for the link behind any beginning of a text |
| CitationBound.LongLinkSpoils | internal/agent/citation_stream.go:171-209 | and wherever the scanner comes to a long link the cut before its end spoils the text |
| CitationGuarantees.FinalConsumesAll | internal/agent/citation_stream.go:36-219 | a final push leaves nothing pending |
| CitationGuarantees.CitationFreeText | internal/agent/citation_stream.go:36-219 | text without tags and links is meant to come out unchanged, loses at most a trailing backtick run, and comes out unchanged exactly when it does not end in a run that opens nothing |
| CitationGuarantees.TrailingBacktickIsLost | internal/agent/citation_stream.go:71-78 | the two-character text of a letter and a backtick loses the backtick |
| CitationGuarantees.LabelBacktickIsLost | internal/agent/citation_stream.go:200-208 | a link label loses its trailing backtick in the middle of a text |
| CitationBound.BeyondTheBound | internal/agent/citation_stream.go:134-142 | for every bound an unregistered tag longer than the bound, cut before its end, streams an extra `>` |
| CitationGuarantees.RewriteEvents | internal/agent/citation_stream.go:324-356 | the event loop rewrites answers, flushes before terminal events and normalizes the saved text |
| CitationGuarantees.OthersPassThrough | internal/agent/citation_stream.go:338-353 | every event that is no answer is sent on once and in order, with only the saved text of a closing event rewritten |
| CitationGuarantees.NoEmptyAnswers | internal/agent/citation_stream.go:330-344 | no empty answer is sent |
| CitationGuarantees.SafeStreamIsComplete | internal/agent/citation_stream.go:322-356 | a safe answer has been streamed in full when the run ends, by success, failure or interrupt, whatever was sent in between |
| CitationGuarantees.StreamAgreesWithDone | internal/agent/citation_stream.go:322-356 | the answers sent in a stream concatenate to exactly the text saved by the closing event |
| CitationGuarantees.SafeStreamAgrees | internal/agent/citation_stream.go:322-356 | so they do for every safe answer, however it was cut |
| CitationGuarantees.ShortTagsStreamAgrees | internal/agent/citation_stream.go:322-356 | among them every answer whose tags and links fit the buffer |
| JsonText.EncodeRune | internal/agent/deep_answer_stream.go:183-188 | every scalar value is encoded as exactly one well-formed character |
| JsonSpelling.EncodesCode | internal/agent/deep_answer_stream.go:183-188 | the code point read back from the bytes by arithmetic is the one that was encoded, in the fewest bytes |
| JsonSpelling.RuneIsEncoding | internal/agent/deep_answer_stream.go:194-199 | every character taken as well formed is the encoding of one code point |
| JsonSpelling.IncompleteMeans | internal/agent/deep_answer_stream.go:191-193 | bytes wait exactly when more bytes can complete a character |
| JsonText.UnquoteSplit | internal/agent/deep_answer_stream.go:183-188 | content cut between two units decodes piece by piece |
| JsonText.CutOutside | internal/agent/deep_answer_stream.go:176-189 | a piece that decodes although it was cut inside a unit ends inside a character or between the halves of a surrogate pair, and then decodes differently |
| JsonText.UnquoteValid | internal/agent/deep_answer_stream.go:183-188 | decoded content is well-formed UTF-8 |
| JsonSpelling.SpelledDecodes | internal/agent/deep_answer_stream.go:183-188 | every text, with each character written as it is, as a two-byte escape, or in hexadecimal with a surrogate pair where needed, is decoded to that text |
| JsonSpelling.TextIsCodes | internal/agent/deep_answer_stream.go:183-188 | every well-formed text is such a sequence of characters |
| JsonSpelling.BriefMeans | internal/agent/deep_answer_stream.go:162-189 | a two-byte escape is accepted exactly for the letters of section 7 of RFC 8259, with their values |
| JsonSpelling.PairMeans | internal/agent/deep_answer_stream.go:172-189 | two units of a surrogate pair are the one character they stand for |
| JsonSpelling.LoneMeans | internal/agent/deep_answer_stream.go:172-189 | a surrogate without its partner becomes the replacement character |
| JsonSpelling.UnitMeans | internal/agent/deep_answer_stream.go:172-189 | any other unit is the character with that code, read off its four digits |
| JsonSpelling.NoEscape | internal/agent/deep_answer_stream.go:162-186 | a `\u` without four hexadecimal digits is refused |
| AnswerDecoder.Decoder.Push | internal/agent/deep_answer_stream.go:130-202 | a push decodes pending plus new bytes as far as possible and returns exactly the text that completes, nothing after a failure |
| AnswerDecoder.FragmentInvariance | internal/agent/deep_answer_stream.go:130-202 | every fragmentation fails or succeeds alike, decodes the same text and leaves the same decoder, cuts inside characters, escapes and surrogate pairs included |
| AnswerDecoder.RunEmitsRunes | internal/agent/deep_answer_stream.go:183-200 | every push returns whole characters only |
| AnswerDecoder.Feed | internal/agent/deep_answer_stream.go:36-95 | the caller sends the text of every push and gives up at the first failure |
| AnswerAgreement.AgreesExactlyWhenTiled | internal/agent/deep_answer_stream.go:157-201 | the streamed text is the whole-text decoding if and only if the decoder's bites end between units of the content |
| AnswerAgreement.PairedTiled | internal/agent/deep_answer_stream.go:176-189 | when every high surrogate is followed by a low one, that condition is just well-formed content |
| AnswerAgreement.CompletedIsWellFormed | internal/agent/deep_answer_stream.go:157-201 | the decoder completes nothing that the whole-text decoder would reject |
| AnswerAgreement.StreamedAnswer | internal/agent/deep_answer_stream.go:130-202 | from the first byte of the arguments and for every fragmentation, the stream ends with the decoded answer exactly on tiled content |
| JsonSpelling.StreamedSpelling | internal/agent/deep_answer_stream.go:130-202 | however an answer is written in the arguments and however those are cut, the stream ends with that answer |
| JsonSpelling.HeaderByte | internal/agent/deep_answer_stream.go:134-146 | the header is collected byte by byte as characters |
| JsonSpelling.WaitsExactly | internal/agent/deep_answer_stream.go:158-193 | inside the string the stream waits exactly for the rest of an escape or of a character |
| JsonSpelling.RefusesExactly | internal/agent/deep_answer_stream.go:158-200 | it refuses exactly control characters, malformed bytes and escapes that mean nothing |
| JsonSpelling.BeforeTheString | internal/agent/deep_answer_stream.go:134-157 | before the string only white space is skipped, and the header has to be accepted |
| AnswerAgreement.UnpairedDisagrees | internal/agent/deep_answer_stream.go:176-189 | two high surrogates before a low one: the stream shows three replacement characters, the whole text one and the paired character |
| EmbeddingQueue.StepKeeps | internal/repository/message_embedding_repository.go:18-77 | every statement keeps: a token exactly while running, attempts between zero and the maximum, a vector exactly when succeeded, no token on two rows |
| EmbeddingQueue.RunKeeps | internal/repository/message_embedding_repository.go:18-77 | so does every run of any number of workers, crashes and ticks |
| EmbeddingQueue.VectorIsFinal | internal/repository/message_embedding_repository.go:43-48 | a written vector and its row never change again |
| EmbeddingQueue.CompletedOnce | internal/repository/message_embedding_repository.go:43-48 | at most one completion per message ever succeeds |
| EmbeddingQueue.StaleStaysStale | internal/repository/message_embedding_repository.go:28-33 | a token that was issued and is not on the row never comes back to it |
| EmbeddingQueue.HoldIsUnbroken | internal/repository/message_embedding_repository.go:43-67 | between two moments at which a row carries a token nobody claims, settles, releases or requeues it |
| EmbeddingQueue.SettledByHolder | internal/repository/message_embedding_repository.go:43-67 | a settling statement takes effect only within the lease, on the row exactly as the claim left it |
| EmbeddingQueue.SettledOnce | internal/repository/message_embedding_repository.go:43-67 | a claim is settled at most once |
| EmbeddingQueue.WorkIsBounded | internal/repository/message_embedding_repository.go:18-59 | while nobody releases or requeues it, a row changes at most twice the maximum plus two times before it stops for good, whatever happens to other rows |
| EmbeddingQueue.AttemptsAccount | internal/repository/message_embedding_repository.go:28-67 | attempts are claims minus releases, so claims never exceed the maximum plus the releases |
| EmbeddingQueue.NeverStuck | internal/repository/message_embedding_repository.go:21-33 | after its delay and lease an active row can either be claimed or is ended as exhausted, never both and never neither |
| EmbeddingEffects.ClaimTakes | internal/repository/message_embedding_repository.go:26-40 | a claim takes the unlocked due row that has been available longest, the smaller id first, counts an attempt and sets token and lease; nothing else changes |
| EmbeddingEffects.ClaimPossible | internal/repository/message_embedding_repository.go:26-40 | whenever an unlocked row is due, a claim takes one |
| EmbeddingEffects.ExhaustionEnds | internal/repository/message_embedding_repository.go:20-25 | rows out of attempts that wait or whose lease has run out end as failed |
| EmbeddingEffects.CompletionStores | internal/repository/message_embedding_repository.go:43-48 | a completion under the lease, for unchanged content and a row without a vector, stores exactly the given vector; any other changes nothing |
| EmbeddingEffects.FailureLeaves | internal/repository/message_embedding_repository.go:50-59 | a failure under the lease leaves status, error code and the time of the next attempt; any other changes nothing |
| EmbeddingEffects.ReleaseLeaves | internal/repository/message_embedding_repository.go:61-67 | a release under the lease gives the attempt back and makes the row available at once; any other changes nothing |
| EmbeddingEffects.RequeueRestarts | internal/repository/message_embedding_repository.go:69-77 | requeueing restarts exactly the smallest ids among rows that want a vector, up to the limit |
| EmbeddingEffects.VectorWasComputed | internal/repository/message_embedding_repository.go:43-48 | over every run, a stored vector came with a completion under its lease, for the content of that very message |
| EmbeddingEffects.ContentIsFinal | internal/repository/message_embedding_repository.go:43-48 | no statement changes the content of a message |
| EmbeddingWorker.FindCandidate | internal/repository/message_embedding_repository.go:28-33 | the first candidate by availability and id that no transaction has locked, none exactly when there is none |
| EmbeddingWorker.FindMissing | internal/repository/message_embedding_repository.go:69-77 | the smallest ids without an embedding, as many as the limit allows |
| EmbeddingWorker.MessageTable.Claim | internal/repository/message_embedding_repository.go:18-42 | exhausted rows end first, then the first candidate is taken under the fresh token |
| EmbeddingWorker.MessageTable.Complete | internal/repository/message_embedding_repository.go:43-48 | writes the vector exactly under the current unexpired token, unchanged content and no vector |
| EmbeddingWorker.MessageTable.Fail | internal/repository/message_embedding_repository.go:50-59 | fails or requeues exactly under the current unexpired token |
| EmbeddingWorker.MessageTable.Release | internal/repository/message_embedding_repository.go:61-67 | gives the attempt back exactly under the current unexpired token |
| EmbeddingWorker.MessageTable.QueueMissing | internal/repository/message_embedding_repository.go:69-77 | requeues one batch of missing embeddings and counts it |
| EmbeddingWorker.Convert | internal/service/message_embedding_worker.go:87-100 | a vector is converted if and only if it has the right dimension and only finite components; an invalid component hides a wrong dimension |
| EmbeddingWorker.Process | internal/service/message_embedding_worker.go:69-136 | exactly one statement settles the claim: release when stopping, completion of a sound timely vector, failure otherwise; none when the store is down |
| EmbeddingEffects.ResultIsStored | internal/service/message_embedding_worker.go:87-121 | a timely result is stored number by number if and only if it is sound; otherwise the row fails with the reason |
| EmbeddingEffects.FailureIsKept | internal/service/message_embedding_worker.go:101-136 | a failed call is retried exactly after a temporary error or a time-out with an attempt left, and the wait doubles with every attempt |
| EmbeddingEffects.DelayDoubles | internal/service/message_embedding_worker.go:127 | the waits double from attempt to attempt |
| EmbeddingEffects.StoppingGivesBack | internal/service/message_embedding_worker.go:81-86 | a stopping worker gives its job back whatever the call returned |
| EmbeddingWorker.RetryLeavesAnAttempt | internal/service/message_embedding_worker.go:126-128 | a row stays active exactly when it is released or retried with attempts left, and it can then be claimed rather than exhausted |
| SummaryCoverage.Refresh | internal/service/context_service.go:335-416 | the range arithmetic of a refresh, including every early exit |
| SummaryCoverage.RefreshedWhen | internal/service/context_service.go:340-411 | there is a new summary exactly with ten messages of which five are neither covered nor among the last five; its count and last message |
| SummaryCoverage.RefreshIsExact | internal/service/context_service.go:349-411 | the new summary covers all but the last five messages it saw, exactly when it saw the last message the existing summary covers |
| SummaryCoverage.StepExact | internal/repository/summary_repository.go:50-61 | a step keeps coverage exact if and only if it is not an overtaken write |
| SummaryCoverage.RunExact | internal/service/context_service.go:335-416 | over every run, coverage stays exact if and only if no write is overtaken |
| SummaryCoverage.CountNeverDecreases | internal/repository/summary_repository.go:50-61 | the stored count never decreases, under any race |
| SummaryCoverage.CoverageGrows | internal/repository/summary_repository.go:50-61 | without overtaken writes the covered prefix only grows and always leaves the last five messages uncovered |
| SummaryCoverage.RaceBreaksCoverage | internal/service/context_service.go:335-416 | a whole run of two refreshers from an empty store after which the count is 16 and the last covered message is the fifth |
| SummaryCoverage.AppliedIsUncovered | internal/service/context_service.go:514-539 | next to an exact summary the history repeats a covered message exactly when it was read before that message was written, starts with a user message after a cut, and drops only covered messages and leading replies |
| SummaryCoverage.CoveredMessagesRepeat | internal/service/context_service.go:514-539 | ten messages read too early come back in full next to a summary that covers them all |
| SummaryCoverage.ApplySummary | internal/service/context_service.go:514-539 | the loops compute that history |
| ToolHistory.FollowResults | internal/agent/context_summary.go:294-325 | following the results of a turn decides whether it is a complete group, and no other end would be |
| ToolHistory.CompletedToolGroups | internal/agent/context_summary.go:287-332 | returns, in order, exactly the complete groups that have a later complete group |
| ToolHistory.CompletedTurns | internal/agent/context_summary.go:259-283 | returns, in order, exactly the plain turns before the latest question that have a later one |
| ToolHistory.KeptPaired | internal/agent/context_summary.go:200-213 | removing messages unit by unit from a well-paired history leaves it well paired |
| ToolHistory.RemovalKeepsPairing | internal/agent/context_summary.go:200-213 | removing whole groups and plain messages in any combination leaves every call with exactly its results |
| HistoryShape.PairedMeans | internal/agent/context_summary.go:200-213 | well paired means that every call has exactly its results right behind it and there is no other result |
| HistoryShape.GroupMeans | internal/agent/context_summary.go:287-332 | what a complete group is, message by message: distinct calls of no guarded tool, their results right behind them, no evidence |
| HistoryShape.OldTurnMeans | internal/agent/context_summary.go:259-283 | what an old plain turn is, message by message |
| ContextShrink.SelectGroups | internal/agent/context_summary.go:156-171 | the loop takes the greedy selection, each group that fits the summarizer behind those taken before it, and none only if none fits alone |
| ContextShrink.TakenExactlyWhenFits | internal/agent/context_summary.go:156-171 | for every group: it is taken exactly when it fits behind those taken before it, and then comes right after them, so the order is kept and every skipped group did not fit |
| ContextShrink.Summarize | internal/agent/context_summary.go:200-223 | one new summary leads the kept messages, the previous one is replaced, and the result is used only if it costs less |
| ContextShrink.SummaryIsSafe | internal/agent/context_summary.go:200-223 | for every history and selection the result is well paired, leads with the summary, and keeps the last complete group, if there is one, and the latest question |
| ContextShrink.SummarizedIs | internal/agent/context_summary.go:200-223 | the new history is the summary and, in order, exactly the messages that were neither selected nor are the summary before |
| ContextShrink.DropOldTurn | internal/agent/budget_guard.go:123-146 | drops exactly the oldest droppable turn, or reports that there is none |
| ContextShrink.DroppableIs | internal/agent/budget_guard.go:123-146 | which turns may be dropped, field by field |
| ContextShrink.DropTurns | internal/agent/budget_guard.go:86-97 | one oldest droppable turn after the other goes, only while the history is over the soft limit and, once one has gone, over the target; it ends within a limit or with nothing droppable left; tool traces, system messages, summaries and evidence survive in order, and so does everything from the latest question on |
| ContextShrink.DropOptional | internal/agent/budget_guard.go:101-112 | optional material goes kind by kind, the newest of a kind first, each only while the history is over the hard limit, never evidence or tool traces |
| LongestFit.SearchIsLongest | internal/agent/context_artifact.go:283-303 | under a monotone cost the binary search returns the largest size that fits |
| LongestFit.SearchFindsSome | internal/agent/context_artifact.go:283-303 | whatever the cost is like, the search does not come back empty when the smallest size fits |
| ArtifactPager.ReadArtifact | internal/agent/context_artifact.go:205-304 | the reader's checks in their order, the selected view, and the page it returns |
| ArtifactViews.RefusedFirst | internal/agent/context_artifact.go:205-219 | offset, limit and selectors are checked first, in this order; only path and keyword go together |
| ArtifactViews.PathView | internal/agent/context_artifact.go:233-245 | a path, given or found for the keyword, selects the decoded text there |
| ArtifactViews.ChunkView | internal/agent/context_artifact.go:246-252 | a chunk id selects that chunk |
| ArtifactViews.SectionView | internal/agent/context_artifact.go:253-260 | a section title selects that range of the content |
| ArtifactViews.SourceView | internal/agent/context_artifact.go:231-261 | and without a selector the whole content is read |
| ArtifactViews.PageReturned | internal/agent/context_artifact.go:261-304 | an accepted call gets the stretch of the view that starts at the offset or at the first occurrence of the keyword, all that was asked for if it is affordable, with the offset to read on from |
| ArtifactViews.NoPage | internal/agent/context_artifact.go:261-271 | behind the view, and where the keyword does not occur any more, the call is refused |
| ArtifactViews.NoView | internal/agent/context_artifact.go:231-260 | a call whose view cannot be built is refused with the reason |
| ArtifactPager.Locate | internal/agent/context_tool_budget.go:207-218 | the first occurrence of the keyword at or after the offset, none exactly when there is none |
| ArtifactPager.PageIsLongest | internal/agent/context_artifact.go:272-304 | under a monotone cost the page is the longest that fits, and the reader reports missing room exactly when not even one character fits |
| ArtifactPager.PagesReassemble | internal/agent/context_artifact.go:176-180 | following the next offset, with an allowance and a limit that may change from call to call, reads the view without gap or overlap; only a last page is complete, and one call more than there are characters left reads it all |
| ArtifactPager.ReaderFinishes | internal/agent/context_artifact.go:272-304 | no call fails whenever pages of one character fit its allowance, without monotonicity |
| ArtifactPager.ReplayIsExact | internal/agent/context_artifact.go:415-443 | a recorded reference replays to exactly the page that was read, and each place is recorded once |
| ArtifactPager.RecordedReplays | internal/agent/context_artifact.go:415-443 | recording keeps every stored reference replayable, and the one that stands for the place of the page, an earlier or the new one, replays to exactly the page |
| ArtifactViews.RecordedAs | internal/agent/context_artifact.go:313-327 | a page is recorded without its text and once for each place |
| ArtifactViews.ReplayedIs | internal/agent/context_artifact.go:415-443 | a reference replays exactly when its selection still stands for a view of the recorded length, and then to its range |
| ToolBudget.ProjectResult | internal/agent/context_tool_budget.go:162-205 | the whole reference if it fits, otherwise the cut found by the search |
| ToolBudget.WholeWhenItFits | internal/agent/context_tool_budget.go:162-166 | a result within its allowance is handed over whole |
| ToolBudget.CutToNothing | internal/agent/context_tool_budget.go:191-204 | only the stub is left when not even an empty beginning fits |
| ToolBudget.CutIsLongest | internal/agent/context_tool_budget.go:191-204 | a cut text is the longest beginning that fits under a monotone cost, with the matching next offset |
| ToolBudget.MembersAreMost | internal/agent/context_tool_budget.go:162-205 | a cut list keeps the most leading members that fit under a monotone cost, and only the stub if not even none fit |
| ToolBudget.MembersTried | internal/agent/context_tool_budget.go:162-190 | what is tried for a list: its first members, without the large extra fields when those alone are too much |
| ToolBudget.FitResults | internal/agent/context_tool_budget.go:136-159 | after the allocation loop every round has left its projection |
| ToolBudget.RoundsCover | internal/agent/context_tool_budget.go:136-159 | every pending result gets a round |
| ToolBudget.RoundsByCost | internal/agent/context_tool_budget.go:137-158 | results are served by increasing cost, equal costs in their own order, and none twice |
| ToolBudget.RoundShares | internal/agent/context_tool_budget.go:136-159 | every round gets an equal share, rounded down, of what the rounds before it have left |
| ToolBudget.SharesAreFair | internal/agent/context_tool_budget.go:136-159 | if every stub fits the first share, every projection fits its share, shares never shrink, and the total stays within the budget |
| ToolBudget.SmallResultsStayWhole | internal/agent/context_tool_budget.go:136-159 | every result that costs at most the first share is kept whole |
| JsonPointer.TwoPassesAreOne | internal/agent/context_artifact_select.go:57-65 | the two replacement passes equal one left-to-right pass on every part the validity loop accepts |
| JsonPointer.PointerResolves | internal/agent/context_artifact_select.go:42-84 | round trip of section 4 of RFC 6901: the escaped, joined path of every value resolves to exactly that value |
| JsonPointer.ResolvesExactlyPointers | internal/agent/context_artifact_select.go:42-84 | conversely, a string resolves only if it is the pointer of a path, with no second spelling of keys or indices |
| JsonPointer.ResolvePointer | internal/agent/context_artifact_select.go:42-84 | the loop over the parts computes that resolution |
| ArtifactStore.StepKeeps | internal/repository/context_artifact_repository.go:19-61 | every interleaving of locked saves and sweeps keeps every user and run within quota |
| ArtifactStore.RunWithinQuota | internal/repository/context_artifact_repository.go:19-61 | so does every run |
| ArtifactStore.StepIsImmutable | internal/repository/context_artifact_repository.go:42-60 | a stored row stays as it is until a sweep removes it, and only a dead one is removed |
| ArtifactStore.ContentNeverChanges | internal/repository/context_artifact_repository.go:42-60 | while it is stored, an id stands for the same artifact |
| ArtifactStore.SaveAgain | internal/repository/context_artifact_repository.go:42-49 | saving again changes nothing whatever the quota, and is accepted exactly for the same scope and hash |
| ArtifactStore.FirstSave | internal/repository/context_artifact_repository.go:35-60 | a new id is accepted exactly when the session is its owner's and the totals of user and run stay within their limits |
| ArtifactStore.LaterSave | internal/repository/context_artifact_repository.go:42-49 | an id that is taken is never stored again, and accepted only for the same owner, scope and content |
| ArtifactStore.UsageIsTotal | internal/repository/context_artifact_repository.go:53-56 | the usage is the sum over the user's rows, or those of one run |
| ArtifactStore.SweepIs | internal/repository/context_artifact_repository.go:85-88 | a sweep keeps, in order, exactly the rows that have not expired or whose session has a live checkpoint |
| ArtifactStore.FoundExactlyWhenKept | internal/repository/context_artifact_repository.go:64-88 | an artifact is findable under its own scope, and no other, exactly when its session is its owner's and a sweep would keep it |
| ArtifactStore.Repository.SaveImmutable | internal/repository/context_artifact_repository.go:19-61 | a save is accepted exactly for a sound artifact within the limits, of an owned session, with a new id and room for it, and then adds that one row |
| ArtifactStore.Repository.FindScoped | internal/repository/context_artifact_repository.go:64-83 | the lookup with owner, scope and expiry |
| ArtifactStore.Repository.DeleteExpired | internal/repository/context_artifact_repository.go:85-88 | removes exactly the rows that are not alive and counts them |
| CallBudget.BudgetsAreOrdered | internal/llm/context_budget.go:38-66 | target, soft and hard marks are in order and input, margin and output split the window, also under an input limit |
| CallBudget.ResolvesWhen | internal/llm/context_budget.go:38-50 | a window is split exactly for a sound policy and when something is left for the input; the policy is spelled out |
| CallBudget.MarginIs | internal/llm/context_budget.go:46 | the margin is the larger of a share of the window, rounded down, and a floor |
| CallBudget.MarksAre | internal/llm/context_budget.go:51-55 | the water marks are the shares of the hard limit for quick and for deep calls, rounded down |
| CallBudget.LimitMovesMarks | internal/llm/context_budget.go:59-66 | an input limit below the hard one takes its place and moves the marks in proportion |
| CallBudget.OutputIsLargest | internal/llm/model_policy.go:14-28 | the fitted output is the largest that fits and was asked for, and exists exactly when the minimum fits |
| CallBudget.ManagedLeavesRoom | internal/llm/model_policy.go:32-37 | a managed output is the largest within its caps that leaves three quarters of the window |
| CallBudget.PreparedCallFits | internal/agent/budget_guard.go:165-223 | every prepared call fits input limit and window, with an output between the minimum and what was requested, under the ceiling |
| CallBudget.PreparedCallIs | internal/agent/budget_guard.go:165-223 | which call goes out, with how much output and with or without the notice, and exactly when none does |
| CallBudget.RequestedIs | internal/agent/budget_guard.go:171-192 | what counts as requested and what is allowed at most |
| CallBudget.RetryIsSmaller | internal/agent/model_recovery.go:62-89 | the retry fits too, with a strictly smaller output that is at least the minimum |
| CallBudget.RetryHalves | internal/agent/model_recovery.go:66-76 | the retry asks for half of what was asked for, at least 512, and there is one exactly when that is less |
| CallBudget.RetriedWhen | internal/agent/model_recovery.go:62-89 | a rejected call is tried again exactly when it is not cancelled, less can be asked for, the smaller call fits, and the counter has room |
| CallBudget.GuardedCall | internal/agent/model_recovery.go:91-111 | the first request goes out exactly when it can be prepared; its answer is handed on as it is unless it is a rejection without output; only then there is a second request, paid from the counter, or the reason why not |
| CallBudget.TaskModel.Generate | internal/agent/deep_task_budget.go:32-77 | requests never exceed the counter, the counter never its limit; the provider's message is handed on unless it asks for tools while unfinished or with no call left for their results, and every other outcome is an error |
| CallBudget.RunTask | internal/agent/deep_task_budget.go:11-77 | over copies, retries and resumed runs that share the counter, each call with its own output limit, the provider is asked at most the limit |
| ClientCache.Cache.Get | internal/llm/client_cache.go:77-87 | the map and the shared list answer and reorder like the plain recency list |
| ClientCache.Cache.Put | internal/llm/client_cache.go:90-109 | the map and the shared list store, reorder and evict like the plain recency list |
| ClientCache.CacheIsMostRecent | internal/llm/client_cache.go:64-109 | after every history the cache holds exactly the most recently used keys, up to its capacity, where a read uses a key that is still among them |
| ClientCache.HitIsLastPut | internal/llm/client_cache.go:64-109 | a key is found exactly when it is among them, with the last value written for it |

## Left out

Deliberately weaker contracts:

- CitationStable.ChunkInvariance: sufficient for one cut; the exact condition for all cuts is `CitationUnsafe.SameExactlyWhenSafe`. Resolving a tag or a link, the attribute syntax and entity decoding are parameters, case folding is ASCII, a character stands for a byte, and the bound is a parameter.
- CitationGuarantees.RewriteEvents: events carry type and content only, and cancellation of the channel is not modelled.
- AnswerDecoder.Decoder.Push: after a failure the decoder's fields are not stated, because its caller gives up. Whether a header is an object with the one field `response` is a parameter.
- PlanSession.Session.FinishTask: evidence and artifact lists of a result are not modelled; wording of messages is reduced to whether there is one.
- PlanInstall.Install: which of several failing checks is reported is not modelled, only whether one fails.
- PlanInvariant.StepKeeps: assumes that the framework resumes an interrupted task agent once per interrupt and that a stage fails or closes only when no task agent is in flight.
- EmbeddingQueue.StepKeeps: tokens and message ids are never issued twice, and one maximum of attempts applies to all workers.
- EmbeddingWorker.Process: the adapter call and its time limit are parameters; a store error is one outcome.
- SummaryCoverage.Refresh: the summary text, its generation and the clamp of its input are one step that may give up; messages are appended in the order in which they are read.
- ContextShrink.Summarize: counting, serialization and the summary call are parameters; snapshot versions and hashes are not modelled.
- ArtifactPager.ReadArtifact: section, chunk and embedded-text selectors are parameters, JSON Pointer views are resolved in `JsonPointer`; a page's cost is an arbitrary function of the reference.
- ToolBudget.FitResults: serialization and token counts are parameters; what the other messages cost is subtracted beforehand.
- JsonPointer.ResolvePointer: works on decoded values; integers that overflow count as out of range.
- ArtifactStore.FoundExactlyWhenKept: one reading of the clock per lookup.
- CallBudget.PreparedCallFits: message sizes before and after the notice are parameters; ratios are real numbers.
- ClientCache.Cache.Put: clients are opaque values and the lock makes every operation one step.

Not modelled:

- The legacy orchestrator and its resume path: a second, weaker copy of the plan machine.
- HTTP, routing, user interface, provider clients, graph runner internals, logging, prompts and event titles.
- `artifactSection` and `artifactKnowledgeChunk`: selectors that only add easy members.
- `dependencyArtifactGrants` and `findArtifactWithGrants`: lookups that copy results of earlier tasks into a table.
- `buildRecallContainer`, `splitHistoryBudget` and the input clamp of the summarizer: arithmetic without a property beyond a reading.
- Plain repositories, cached repositories, retrieval queries, scoring and reranking.
- Token counting and JSON serialization libraries.
