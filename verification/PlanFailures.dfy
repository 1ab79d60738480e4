/** Failures that nothing clears: which result a task gets, and why a refused task never
    succeeds afterwards. */
module PlanFailures {
  import opened Digraph
  import opened ExecutionPlan
  import opened PlanInstall
  import opened PlanMachine
  import opened PlanInvariant
  import opened PlanRuns

  predicate Marked(s: State, id: Id) { ReasonOf(s.failures, id) != "" }

  /** Every tool that counted failed, and at least one did. */
  predicate OnlyFailedTools(s: State, id: Id) {
    id in s.progress && s.progress[id].failedTools != {} && s.progress[id].succeeded == 0
  }

  /** A success needs an answer and no error, interrupt, sticky failure, uncorrected read or
      tool record without a single success. */
  predicate MaySucceed(s: State, id: Id, o: Outcome) {
    && o.error == "" && !o.interrupted && Trim(o.answer) != ""
    && !Marked(s, id) && ReasonOf(s.argumentFailures, id) == "" && !OnlyFailedTools(s, id)
  }

  lemma ResultStatus(s: State, t: Task, o: Outcome)
    ensures var r := ResultOf(s, t, o);
      && (r.status.Succeeded? <==> MaySucceed(s, t.id, o))
      && (r.status.Waiting? <==> o.interrupted && o.error == "")
      && (r.status.Failed? <==> !r.status.Succeeded? && !r.status.Waiting?)
      && (r.status.Failed? <==> r.error != "")
  {}

  lemma ResultError(s: State, t: Task, o: Outcome)
    ensures var r := ResultOf(s, t, o);
      && (Marked(s, t.id) && !o.interrupted ==> r.error == ReasonOf(s.failures, t.id))
      && (o.error != "" && (o.interrupted || !Marked(s, t.id)) ==> r.error == o.error)
      && (o.error == "" && !o.interrupted && !Marked(s, t.id) && ReasonOf(s.argumentFailures, t.id) != "" ==>
            r.error == ReasonOf(s.argumentFailures, t.id))
  {}

  lemma ResultSummary(s: State, t: Task, o: Outcome)
    requires ResultOf(s, t, o).status.Succeeded?
    ensures ResultOf(s, t, o).summary
            == (if t.id in s.progress && s.progress[t.id].failedTools != {} then TOOL_LIMITS else "") + Trim(o.answer)
  {
    assert "" + Trim(o.answer) == Trim(o.answer);
  }

  /** Which result a task gets. An error beats an interrupt; a sticky failure beats both an
      error and an answer, but lets an interrupted task wait; an uncorrected read yields to an
      error; failed tools spoil a success only when no tool succeeded, and are told otherwise. */
  lemma ResultPrecedence(s: State, t: Task, o: Outcome)
    ensures var r := ResultOf(s, t, o);
      && (r.status.Succeeded? <==> MaySucceed(s, t.id, o))
      && (r.status.Waiting? <==> o.interrupted && o.error == "")
      && (r.status.Failed? <==> !r.status.Succeeded? && !r.status.Waiting?)
      && (r.status.Failed? <==> r.error != "")
      && (Marked(s, t.id) && !o.interrupted ==> r.error == ReasonOf(s.failures, t.id))
      && (o.error != "" && (o.interrupted || !Marked(s, t.id)) ==> r.error == o.error)
      && (o.error == "" && !o.interrupted && !Marked(s, t.id) && ReasonOf(s.argumentFailures, t.id) != "" ==>
            r.error == ReasonOf(s.argumentFailures, t.id))
      && (r.status.Succeeded? ==>
            r.summary == (if t.id in s.progress && s.progress[t.id].failedTools != {} then TOOL_LIMITS else "")
                         + Trim(o.answer))
  {
    ResultStatus(s, t, o);
    ResultError(s, t, o);
    if ResultOf(s, t, o).status.Succeeded? { ResultSummary(s, t, o); }
  }

  /** The event refuses the task: its approval is rejected, or one of its tools is blocked or
      fails after the task has used a dangerous tool. */
  predicate Refuses(s: State, e: Event, id: Id) {
    match e
    case GuardTool(x, dangerous, rejected) => x == id && dangerous && rejected
    case RecordTool(x, tool) =>
      x == id && !(tool.artifactRead && tool.correctable) && tool.failed && (tool.blocked || id in s.facts.unsafeTasks)
    case _ => false
  }

  lemma GuardMarks(s: State, id: Id)
    ensures Marked(Guard(s, id, true, true), id) && Guard(s, id, true, true).facts.results == s.facts.results
  {}

  lemma ToolMarks(s: State, id: Id, t: ToolOutcome)
    requires WellReported(t) && !(t.artifactRead && t.correctable) && t.failed
    requires t.blocked || id in s.facts.unsafeTasks
    ensures Marked(AfterTool(s, id, t), id) && AfterTool(s, id, t).facts.results == s.facts.results
  {}

  lemma RunningIsOpen(s: State, id: Id)
    requires Inv(s) && id in s.inFlight
    ensures !Settles(s.facts.results, id)
  {
    assert S(s, id).Running?;
  }

  lemma RefusalMarks(s: State, e: Event, id: Id)
    requires Inv(s) && Enabled(s, e) && Refuses(s, e, id)
    ensures Marked(After(s, e), id) && !Settles(After(s, e).facts.results, id)
  {
    RunningIsOpen(s, id);
    match e
    case GuardTool(_, _, _) => GuardMarks(s, id);
    case RecordTool(_, t) => ToolMarks(s, id, t);
  }

  /** No event takes a mark away. */
  lemma MarkStays(s: State, e: Event, id: Id)
    requires Enabled(s, e) && Marked(s, id)
    ensures Marked(After(s, e), id)
  {}

  /** The task has not ended well, and if it ended, the error says why. */
  predicate NotWell(results: map<Id, TaskResult>, id: Id) {
    Settles(results, id) ==> results[id].status.Failed? && results[id].error != ""
  }

  lemma ResultsStay(s: State, e: Event)
    requires Enabled(s, e) && !e.FinishTask?
    ensures After(s, e).facts.results == s.facts.results
  {
    match e
    case InstallPlan(cfg, freshId, p) => InstallKeepsFlags(s.facts, cfg, freshId, p);
    case StartTask(_, _, _) =>
    case Fail =>
    case _ => QuietIsStill(s, e);
  }

  lemma ResultUnwell(s: State, t: Task, o: Outcome)
    requires Marked(s, t.id)
    ensures ResultOf(s, t, o).status.Waiting?
            || (ResultOf(s, t, o).status.Failed? && ResultOf(s, t, o).error != "")
  {
    ResultStatus(s, t, o);
  }

  lemma FinishedUnwell(s: State, e: Event, id: Id)
    requires Enabled(s, e) && e.FinishTask? && Marked(s, id) && NotWell(s.facts.results, id)
    ensures NotWell(After(s, e).facts.results, id)
  {
    var t := TaskIn(s.batch, e.id);
    var r := ResultOf(s, t, e.outcome);
    TaskInFacts(s.batch, e.id);
    if e.id == id { ResultUnwell(s, t, e.outcome); }
    MergedUnwell(s.facts.results, e.id, r, id);
    assert After(s, e).facts.results == s.facts.results[e.id := r];
  }

  lemma MergedUnwell(results: map<Id, TaskResult>, x: Id, r: TaskResult, id: Id)
    requires NotWell(results, id) && (x == id ==> r.status.Waiting? || (r.status.Failed? && r.error != ""))
    ensures NotWell(results[x := r], id)
  {}

  lemma MarkedStaysUnwell(s: State, e: Event, id: Id)
    requires Enabled(s, e) && Marked(s, id) && NotWell(s.facts.results, id)
    ensures NotWell(After(s, e).facts.results, id)
  {
    if e.FinishTask? { FinishedUnwell(s, e, id); } else { ResultsStay(s, e); }
  }

  lemma RunStaysUnwell(states: seq<State>, events: seq<Event>, n: nat, id: Id)
    requires IsRun(states, events) && n < |events| && Marked(states[n], id) && NotWell(states[n].facts.results, id)
    ensures Marked(states[n+1], id) && NotWell(states[n+1].facts.results, id)
  {
    MarkStays(states[n], events[n], id);
    MarkedStaysUnwell(states[n], events[n], id);
  }

  predicate Unwell(s: State, id: Id) { Marked(s, id) && NotWell(s.facts.results, id) }

  lemma {:induction false} ChainUnwell(states: seq<State>, i: nat, j: nat, id: Id)
    requires i <= j < |states| && Unwell(states[i], id)
    requires forall n :: 0 <= n < |states| - 1 && Unwell(states[n], id) ==> Unwell(states[n+1], id)
    ensures Unwell(states[j], id)
    decreases j
  {
    if i < j {
      ChainUnwell(states, i, j - 1, id);
      assert Unwell(states[j-1+1], id);
    }
  }

  lemma UnwellOnwards(states: seq<State>, events: seq<Event>, i: nat, j: nat, id: Id)
    requires IsRun(states, events) && i <= j < |states| && Unwell(states[i], id)
    ensures Unwell(states[j], id)
  {
    forall n | 0 <= n < |states| - 1 && Unwell(states[n], id) ensures Unwell(states[n+1], id) {
      RunStaysUnwell(states, events, n, id);
    }
    ChainUnwell(states, i, j, id);
  }

  /** A task whose approval was rejected, or that was blocked, never succeeds: not by any
      later answer, retry, resume or plan. If it ends, it ends with an error. */
  lemma RefusedNeverSucceeds(states: seq<State>, events: seq<Event>, i: nat, j: nat, id: Id)
    requires IsRun(states, events) && i < j < |states| && Refuses(states[i], events[i], id)
    ensures !PlanMachine.Succeeded(states[j].facts.results, id) && !S(states[j], id).Succeeded?
    ensures Settles(states[j].facts.results, id) ==> states[j].facts.results[id].error != ""
  {
    RunInvariant(states, events, i);
    RefusalMarks(states[i], events[i], id);
    UnwellOnwards(states, events, i + 1, j, id);
    RunInvariant(states, events, j);
  }

  /** So no accepted answer rests on a refused task. */
  lemma AnswerAvoidsRefused(states: seq<State>, events: seq<Event>, i: nat, j: nat, id: Id)
    requires IsRun(states, events) && i < j < |states| && Refuses(states[i], events[i], id)
    requires states[j].stage == Finished
    ensures var last := FinalSynthesis(Tasks(states[j]));
            last.Some? && last.value.id != id && !Reaches(G(states[j]), last.value.id, id)
  {
    RefusedNeverSucceeds(states, events, i, j, id);
    var s := states[j];
    RunInvariant(states, events, j);
    var response :| CompletionValid(s.facts, response) && s.final == Trim(response);
    FinalSynthesisIsNewest(Tasks(s));
    var last := FinalSynthesis(Tasks(s)).value;
    StatusOfMember(Tasks(s), last);
    if Reaches(G(s), last.id, id) { SuccessfulAncestors(s, last.id, id); }
  }
}
