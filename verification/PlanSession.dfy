/** The shared session of a plan-and-execute run: each method is one locked section
    of the runtime, and refines one event of the plan machine. */
module PlanSession {
  import opened Digraph
  import opened ExecutionPlan
  import opened SynthesisCoverage
  import opened PlanInstall
  import opened PlanMachine
  import opened PlanInvariant
  import opened PlanFailures
  import opened Options

  /** One delegation proposed by the executor model. */
  datatype Call = Call(taskId: Id, role: Agent)

  /** The tasks of a batch that still need an agent. */
  ghost function Remaining(batch: seq<Task>, results: map<Id, TaskResult>): set<Id> {
    set t | t in batch && (t.id in results ==> results[t.id].status.Waiting?) :: t.id
  }

  ghost function Delegated(calls: seq<Call>): set<Id> {
    set c | c in calls :: c.taskId
  }

  ghost predicate RightRole(batch: seq<Task>, c: Call) {
    exists t :: t in batch && t.id == c.taskId && t.agent == c.role
  }

  ghost predicate DistinctTasks(calls: seq<Call>) {
    forall i, j :: 0 <= i < j < |calls| ==> calls[i].taskId != calls[j].taskId
  }

  /** The calls delegate every remaining task once, to its own role, and nothing else. */
  ghost predicate DelegatesExactly(batch: seq<Task>, results: map<Id, TaskResult>, calls: seq<Call>) {
    && (forall k :: 0 <= k < |calls| ==> RightRole(batch, calls[k]))
    && Delegated(calls) == Remaining(batch, results)
    && DistinctTasks(calls)
  }

  method NewestSynthesis(ts: seq<Task>) returns (ended: bool, last: Option<Task>)
    ensures ended <==> forall t :: t in ts ==> !t.status.Pending? && !t.status.Running? && !t.status.Waiting?
    ensures ended ==> last == FinalSynthesis(ts)
  {
    last := None;
    for i := 0 to |ts|
      invariant last == FinalSynthesis(ts[..i])
      invariant forall t :: t in ts[..i] ==> !t.status.Pending? && !t.status.Running? && !t.status.Waiting?
    {
      var t := ts[i];
      assert t in ts && ts[..i+1][..i] == ts[..i];
      if t.status.Pending? || t.status.Running? || t.status.Waiting? { return false, last; }
      if t.agent.SynthesisReview? && t.status.Succeeded? && (last.None? || t.addedVersion >= last.value.addedVersion) {
        last := Some(t);
      }
    }
    assert ts[..|ts|] == ts;
    ended := true;
  }

  method CoversResearch(ts: seq<Task>, id: Id) returns (ok: bool)
    requires UniqueIds(ts)
    ensures ok <==> forall t :: t in ts && !t.agent.SynthesisReview? && t.status.Succeeded? ==>
              Reaches(GraphOf(ts), id, t.id)
  {
    var byId := Index(ts);
    IndexTabulates(ts, byId);
    var graph := map k | k in byId :: byId[k].deps;
    TabulatedEdges(graph, ts);
    var ancestors := Ancestors(graph, id);
    for i := 0 to |ts|
      invariant forall t :: t in ts[..i] && !t.agent.SynthesisReview? && t.status.Succeeded? ==> t.id in ancestors
    {
      var t := ts[i];
      assert t in ts;
      if !t.agent.SynthesisReview? && t.status.Succeeded? && t.id !in ancestors { return false; }
    }
    return true;
  }

  /** `validatePECompletion`. */
  method ValidateCompletion(f: Facts, response: string) returns (ok: bool)
    requires UniqueIds(f.plan.tasks)
    ensures ok <==> CompletionValid(f, response)
  {
    if Blank(response) { return false; }
    var ended, last := NewestSynthesis(f.plan.tasks);
    if !ended || last.None? { return false; }
    var id := last.value.id;
    if id !in f.results || Blank(f.results[id].summary) { return false; }
    ok := CoversResearch(f.plan.tasks, id);
  }

  method MarkRunning(ts: seq<Task>, id: Id) returns (out: seq<Task>)
    ensures out == WithStatus(ts, id, Running)
  {
    out := ts;
    for i := 0 to |ts|
      invariant |out| == |ts|
      invariant forall k :: 0 <= k < i ==> out[k] == if ts[k].id == id then ts[k].(status := Running) else ts[k]
      invariant forall k :: i <= k < |ts| ==> out[k] == ts[k]
    {
      if out[i].id == id { out := out[i := out[i].(status := Running)]; }
    }
  }

  /** `mergeTaskResult` stops at the first task with the id. */
  method MergeResult(ts: seq<Task>, r: TaskResult) returns (out: seq<Task>)
    requires UniqueIds(ts)
    ensures out == WithResult(ts, r)
  {
    out := ts;
    var i := 0;
    while i < |ts| && ts[i].id != r.taskId
      invariant 0 <= i <= |ts|
      invariant forall k :: 0 <= k < i ==> ts[k].id != r.taskId
    {
      i := i + 1;
    }
    if i < |ts| {
      var t := ts[i].(status := r.status, resultRef := r.taskId, summary := Truncate(r.summary, 500));
      if r.error != "" { t := t.(summary := r.error); }
      out := ts[i := t];
    }
  }

  method CloseTasks(ts: seq<Task>) returns (out: seq<Task>)
    ensures out == CancelAll(ts)
  {
    out := ts;
    for i := 0 to |ts|
      invariant |out| == |ts|
      invariant forall k :: 0 <= k < i ==> out[k] == CancelAll(ts)[k]
      invariant forall k :: i <= k < |ts| ==> out[k] == ts[k]
    {
      if out[i].status.Pending? || out[i].status.Running? || out[i].status.Waiting? {
        out := out[i := out[i].(status := Canceled)];
      }
    }
  }

  /** First task of a list with the given id. */
  method Find(ts: seq<Task>, id: Id) returns (found: bool, t: Task)
    ensures found <==> id in Ids(ts)
    ensures found ==> t == TaskIn(ts, id)
  {
    var i := 0;
    t := Task(id, 0, UnknownAgent(""), "", "", [], Unset, "", "");
    assert ts[0..] == ts;
    while i < |ts|
      invariant 0 <= i <= |ts|
      invariant id in Ids(ts) <==> id in Ids(ts[i..])
      invariant id in Ids(ts) ==> TaskIn(ts, id) == TaskIn(ts[i..], id)
    {
      assert ts[i..] == [ts[i]] + ts[i+1..];
      if ts[i].id == id { return true, ts[i]; }
      assert ts[i..][1..] == ts[i+1..];
      i := i + 1;
    }
    return false, t;
  }

  method CurrentStatus(ts: seq<Task>, id: Id) returns (st: Status)
    requires UniqueIds(ts)
    ensures st == StatusOf(ts, id)
  {
    var found, t := Find(ts, id);
    if !found {
      StatusOfAbsent(ts, id);
      return Unset;
    }
    TaskInFacts(ts, id);
    StatusOfMember(ts, t);
    return t.status;
  }

  /** The admission checks a task agent makes before it starts. */
  method Admission(batch: seq<Task>, results: map<Id, TaskResult>, ts: seq<Task>, id: Id, role: Agent, resumed: bool)
    returns (ok: bool)
    requires UniqueIds(ts)
    ensures ok <==> Admits(batch, results, ts, id, role, resumed)
  {
    var found, task := Find(batch, id);
    if !found || task.agent != role { return false; }
    if id in results && !results[id].status.Waiting? { return false; }
    var current := CurrentStatus(ts, id);
    if current.Running? && !resumed { return false; }
    for i := 0 to |task.deps|
      invariant forall d :: d in task.deps[..i] ==> PlanMachine.Succeeded(results, d)
    {
      assert task.deps[i] in task.deps;
      if !PlanMachine.Succeeded(results, task.deps[i]) { return false; }
    }
    assert task.deps[..|task.deps|] == task.deps;
    ok := true;
  }

  method CountTool(progress: map<Id, Progress>, id: Id, t: ToolOutcome) returns (out: map<Id, Progress>)
    requires !t.artifactRead && t.counted
    ensures out == Tally(progress, id, t)
  {
    var p := if id in progress then progress[id] else Progress(0, {});
    if t.failed { p := p.(failedTools := p.failedTools + {t.tool}); }
    else { p := p.(succeeded := p.succeeded + 1); }
    out := progress[id := p];
  }

  /** Whoever had a failure still has one. */
  ghost predicate KeepsMarks(before: map<Id, string>, after: map<Id, string>) {
    forall x :: ReasonOf(before, x) != "" ==> ReasonOf(after, x) != ""
  }

  lemma ToolKeepsMarks(s: State, id: Id, t: ToolOutcome)
    requires WellReported(t)
    ensures KeepsMarks(s.failures, AfterTool(s, id, t).failures)
  {}

  method PickBatch(p: Plan) returns (ready: seq<Task>)
    ensures ready == NextBatch(p)
  {
    ready := ReadyTasks(p.tasks);
    if !p.strategy.Parallel? && |ready| > 1 { ready := ready[..1]; }
  }

  class Session {
    var query: string
    var plan: Plan
    var results: map<Id, TaskResult>
    var batch: seq<Task>
    var round: int
    var final: string
    var retryUsed: bool
    var unsafeTasks: set<Id>
    var denied: bool
    var blocked: bool
    var failures: map<Id, string>
    var argumentFailures: map<Id, string>
    var progress: map<Id, Progress>
    // What the runner around the session knows: its stage and its live agents.
    ghost var stage: Stage
    ghost var inFlight: set<Id>
    ghost var parked: set<Id>
    ghost var broken: bool

    function FactsNow(): Facts
      reads this
    {
      Facts(plan, results, query, round, retryUsed, unsafeTasks, denied, blocked)
    }

    ghost function View(): State
      reads this
    {
      State(FactsNow(), stage, batch, final, failures, argumentFailures, progress, inFlight, parked, broken)
    }

    constructor (query: string)
      ensures Init(View()) && this.query == query
    {
      this.query := query;
      plan := Plan("", 0, NoPhase, "", 0, "", Direct, Unset, []);
      results, batch, round, final := map[], [], 0, "";
      retryUsed, unsafeTasks, denied, blocked := false, {}, false, false;
      failures, argumentFailures, progress := map[], map[], map[];
      stage, inFlight, parked, broken := AtPlanner, {}, {}, false;
    }

    /** `installPlan` on the session: replaced on success, untouched on failure. */
    method InstallPlan(cfg: Config, freshId: string, next: Proposal) returns (ok: bool)
      requires stage in {AtPlanner, AtReplanner}
      modifies this`plan, this`retryUsed, this`stage
      ensures ok == Acceptable(old(FactsNow()), cfg, freshId, next)
      ensures FactsNow() == if ok then Installed(old(FactsNow()), cfg, freshId, next) else old(FactsNow())
      ensures stage == if ok then PlanReady else old(stage)
    {
      var after;
      ok, after := Install(FactsNow(), cfg, freshId, next);
      if ok {
        plan, retryUsed := after.plan, after.retryUsed;
        stage := PlanReady;
        assert FactsNow() == after;
      }
    }

    /** The executing stage opens a round; an empty batch is an error, which
        `PlanInvariant.BatchKeeps` shows cannot happen in a run. */
    method StartBatch() returns (ok: bool)
      requires stage == PlanReady
      modifies this`plan, this`round, this`batch, this`stage
      ensures View() == After(old(View()), Event.StartBatch)
      ensures ok <==> batch != []
    {
      ok := OpenRound();
    }

    method OpenRound() returns (ok: bool)
      modifies this`plan, this`round, this`batch, this`stage
      ensures View() == Open(old(View()))
      ensures ok <==> batch != []
    {
      ghost var s := View();
      var ready := PickBatch(plan);
      round := round + 1;
      plan := plan.(phase := Executing, status := Running, round := round);
      batch := ready;
      ok := |batch| != 0;
      stage := if ok then AtExecutor else Stopping;
      assert View() == Open(s);
    }

    /** Admission and start of a task agent. */
    method StartTask(id: Id, role: Agent, resumed: bool) returns (ok: bool)
      requires stage == AtExecutor && (resumed ==> id in parked) && UniqueIds(plan.tasks)
      modifies this`plan, this`inFlight, this`parked
      ensures ok <==> Enabled(old(View()), Event.StartTask(id, role, resumed))
      ensures View() == if ok then After(old(View()), Event.StartTask(id, role, resumed)) else old(View())
    {
      ok := Admission(batch, results, plan.tasks, id, role, resumed);
      if ok { Launch(id); }
    }

    method Launch(id: Id)
      modifies this`plan, this`inFlight, this`parked
      ensures View() == Start(old(View()), id)
    {
      ghost var s := View();
      var tasks := MarkRunning(plan.tasks, id);
      plan := plan.(tasks := tasks);
      inFlight, parked := inFlight + {id}, parked - {id};
      assert View() == Start(s, id);
    }

    /** The end of a task agent: the sticky failure facts decide, then the result is merged. */
    method FinishTask(id: Id, outcome: Outcome)
      requires stage == AtExecutor && id in inFlight && id in Ids(batch) && UniqueIds(plan.tasks)
      modifies this`plan, this`results, this`inFlight, this`parked, this`broken
      ensures View()
              == Merge(old(View()), id, ResultOf(old(View()), TaskIn(old(batch), id), outcome), outcome.error != "")
    {
      var found, task := Find(batch, id);
      TaskInFacts(batch, id);
      var r := Judge(task, outcome);
      MergeTask(id, r, outcome.error != "");
    }

    method MergeTask(id: Id, r: TaskResult, fatal: bool)
      requires r.taskId == id && UniqueIds(plan.tasks)
      modifies this`plan, this`results, this`inFlight, this`parked, this`broken
      ensures results == old(results)[id := r] && plan == old(plan).(tasks := WithResult(old(plan.tasks), r))
      ensures inFlight == old(inFlight) - {id} && broken == (old(broken) || fatal)
      ensures parked == if r.status.Waiting? then old(parked) + {id} else old(parked)
    {
      results := results[id := r];
      var tasks := MergeResult(plan.tasks, r);
      plan := plan.(tasks := tasks);
      inFlight := inFlight - {id};
      if r.status.Waiting? { parked := parked + {id}; }
      broken := broken || fatal;
    }

    method Judge(task: Task, o: Outcome) returns (r: TaskResult)
      ensures r == ResultOf(View(), task, o) && r.taskId == task.id
      ensures r.status.Waiting? <==> o.interrupted && o.error == ""
      ensures r.status.Succeeded? <==> MaySucceed(View(), task.id, o)
      ensures ReasonOf(failures, task.id) != "" && !o.interrupted ==>
                r.status.Failed? && r.error == ReasonOf(failures, task.id)
    {
      ResultPrecedence(View(), task, o);
      r := TaskResult(task.id, task.agent, Status.Succeeded, Trim(o.answer), "");
      if o.error != "" { r := r.(status := Failed, error := o.error); }
      else if o.interrupted { r := r.(status := Waiting); }
      else if r.summary == "" { r := r.(status := Failed, error := "no result"); }
      if task.id in failures && failures[task.id] != "" && !o.interrupted {
        r := r.(status := Failed, error := failures[task.id]);
      } else if task.id in argumentFailures && argumentFailures[task.id] != "" && o.error == "" && !o.interrupted {
        r := r.(status := Failed, error := argumentFailures[task.id]);
      }
      if r.status.Succeeded? && task.id in progress && progress[task.id].failedTools != {} {
        if progress[task.id].succeeded == 0 { r := r.(status := Failed, error := TOOL_LIMITS); }
        else { r := r.(summary := TOOL_LIMITS + r.summary); }
      }
    }

    /** First lock of the tool middleware: dangerous tools and denied approvals leave marks. */
    method GuardTool(id: Id, dangerous: bool, rejected: bool) returns (proceed: bool)
      requires stage == AtExecutor && id in inFlight
      modifies this`unsafeTasks, this`denied, this`failures
      ensures View() == After(old(View()), Event.GuardTool(id, dangerous, rejected))
      ensures proceed <==> !TerminalFact(old(View()), id)
    {
      proceed := PassGuard(id, dangerous, rejected);
    }

    method PassGuard(id: Id, dangerous: bool, rejected: bool) returns (proceed: bool)
      modifies this`unsafeTasks, this`denied, this`failures
      ensures View() == Guard(old(View()), id, dangerous, rejected)
      ensures proceed <==> !TerminalFact(old(View()), id)
    {
      if id in failures && failures[id] != "" && (denied || blocked || id in unsafeTasks) { return false; }
      if dangerous {
        unsafeTasks := unsafeTasks + {id};
        if rejected {
          denied := true;
          failures := failures[id := "approval rejected"];
        }
      }
      proceed := true;
    }

    /** Last locks of the tool middleware: record what the tool really returned. */
    method RecordTool(id: Id, t: ToolOutcome)
      requires stage == AtExecutor && id in inFlight && WellReported(t)
      modifies this`argumentFailures, this`progress, this`failures, this`blocked
      ensures View() == After(old(View()), Event.RecordTool(id, t))
      ensures KeepsMarks(old(failures), failures)
    {
      ToolKeepsMarks(View(), id, t);
      NoteTool(id, t);
    }

    method NoteTool(id: Id, t: ToolOutcome)
      modifies this`argumentFailures, this`progress, this`failures, this`blocked
      ensures View() == AfterTool(old(View()), id, t)
    {
      if t.artifactRead && t.correctable {
        argumentFailures := argumentFailures[id := t.message];
        return;
      }
      CountOutcome(id, t);
      if t.failed && (t.blocked || id in unsafeTasks) { MarkFailure(id, t); }
    }

    /** A successful read clears its argument failure; any other counted call is tallied. */
    method CountOutcome(id: Id, t: ToolOutcome)
      modifies this`argumentFailures, this`progress
      ensures argumentFailures == if t.artifactRead then old(argumentFailures) - {id} else old(argumentFailures)
      ensures progress == Tally(old(progress), id, t)
    {
      if t.artifactRead {
        argumentFailures := argumentFailures - {id};
      } else if t.counted {
        var tallied := CountTool(progress, id, t);
        progress := tallied;
      }
    }

    method MarkFailure(id: Id, t: ToolOutcome)
      modifies this`failures, this`blocked
      ensures failures == old(failures)[id := t.message] && blocked == (old(blocked) || t.blocked)
    {
      failures := failures[id := t.message];
      blocked := blocked || t.blocked;
    }

    /** The executing stage closes: every task of the batch must have settled. */
    method FinishBatch() returns (ok: bool)
      requires stage == AtExecutor && inFlight == {} && !broken
      modifies this`plan, this`stage
      ensures ok <==> Enabled(old(View()), Event.FinishBatch)
      ensures View() == if ok then After(old(View()), Event.FinishBatch) else old(View())
    {
      ghost var s := View();
      for i := 0 to |batch|
        invariant View() == s
        invariant forall t :: t in batch[..i] ==> Settles(results, t.id)
      {
        assert batch[i] in batch;
        if !Settles(results, batch[i].id) { return false; }
      }
      assert batch[..|batch|] == batch;
      plan := plan.(phase := Replanning);
      stage := AtReplanner;
      ok := true;
    }

    /** The final answer is accepted only over complete, fully covered work. */
    method Complete(response: string) returns (ok: bool)
      requires stage == AtReplanner && UniqueIds(plan.tasks)
      modifies this`final, this`stage
      ensures ok <==> Enabled(old(View()), Event.Complete(response))
      ensures View() == if ok then After(old(View()), Event.Complete(response)) else old(View())
    {
      ok := ValidateCompletion(FactsNow(), response);
      if ok {
        final := Trim(response);
        stage := Finished;
      }
    }

    /** `failPlan`: every failure exit closes the unfinished tasks. */
    method Fail()
      requires stage != Finished && stage != Aborted
      modifies this`plan, this`stage, this`inFlight, this`parked
      ensures View() == After(old(View()), Event.Fail)
    {
      ClosePlan();
    }

    method ClosePlan()
      modifies this`plan, this`stage, this`inFlight, this`parked
      ensures View() == Close(old(View()))
    {
      ghost var s := View();
      var tasks := CloseTasks(plan.tasks);
      plan := plan.(status := Failed, phase := FailedPhase, tasks := tasks);
      stage, inFlight, parked := Aborted, {}, {};
      assert View() == Close(s);
    }

    /** `peExecutorModel.validate`: accepts a delegation exactly when it covers the
        unfinished batch once each, or, without calls, when nothing is left to do. */
    method ValidateDelegation(content: string, calls: seq<Call>) returns (ok: bool)
      requires UniqueIds(batch)
      ensures calls == [] ==> (ok <==> Remaining(batch, results) == {} && !Blank(content))
      ensures calls != [] ==> (ok <==> DelegatesExactly(batch, results, calls))
    {
      var remaining: map<Id, Task> := map[];
      for i := 0 to |batch|
        invariant remaining.Keys == Remaining(batch[..i], results)
        invariant forall id :: id in remaining ==> remaining[id] in batch && remaining[id].id == id
      {
        var task := batch[i];
        assert batch[..i+1] == batch[..i] + [task];
        if task.id !in results || results[task.id].status.Waiting? { remaining := remaining[task.id := task]; }
      }
      assert batch[..|batch|] == batch;
      if |calls| == 0 { return remaining == map[] && !Blank(content); }
      ok := CheckCalls(batch, results, remaining, calls);
    }
  }

  lemma RoleIsUnique(batch: seq<Task>, t: Task, c: Call)
    requires UniqueIds(batch) && t in batch && t.id == c.taskId && RightRole(batch, c)
    ensures t.agent == c.role
  {
    var u :| u in batch && u.id == c.taskId && u.agent == c.role;
    UniqueTask(batch, t, u);
  }

  /** The per-call checks: a remaining task, its own role, no task twice. */
  method ScanCalls(ghost batch: seq<Task>, remaining: map<Id, Task>, calls: seq<Call>) returns (ok: bool, seen: set<Id>)
    requires UniqueIds(batch)
    requires forall id :: id in remaining ==> remaining[id] in batch && remaining[id].id == id
    ensures ok <==> Delegated(calls) <= remaining.Keys && DistinctTasks(calls)
                    && forall k :: 0 <= k < |calls| ==> RightRole(batch, calls[k])
    ensures ok ==> seen == Delegated(calls)
  {
    seen := {};
    for i := 0 to |calls|
      invariant seen == Delegated(calls[..i])
      invariant seen <= remaining.Keys
      invariant forall k :: 0 <= k < i ==> RightRole(batch, calls[k])
      invariant DistinctTasks(calls[..i])
    {
      var call := calls[i];
      assert call in calls && call.taskId in Delegated(calls);
      assert calls[..i+1] == calls[..i] + [call];
      if call.taskId !in remaining { return false, seen; }
      if remaining[call.taskId].agent != call.role {
        if RightRole(batch, call) { RoleIsUnique(batch, remaining[call.taskId], call); }
        return false, seen;
      }
      if call.taskId in seen {
        var c :| c in calls[..i] && c.taskId == call.taskId;
        var k :| 0 <= k < i && calls[k] == c;
        assert calls[k].taskId == calls[i].taskId;
        return false, seen;
      }
      assert RightRole(batch, call);
      seen := seen + {call.taskId};
    }
    assert calls[..|calls|] == calls;
    ok := true;
  }

  method CheckCalls(ghost batch: seq<Task>, ghost results: map<Id, TaskResult>, remaining: map<Id, Task>,
                    calls: seq<Call>)
    returns (ok: bool)
    requires UniqueIds(batch) && remaining.Keys == Remaining(batch, results)
    requires forall id :: id in remaining ==> remaining[id] in batch && remaining[id].id == id
    ensures ok <==> DelegatesExactly(batch, results, calls)
  {
    var fine, seen := ScanCalls(batch, remaining, calls);
    if !fine { return false; }
    ok := |seen| == |remaining.Keys|;
    if ok { EqualSize(seen, remaining.Keys); }
  }

  lemma {:induction false} EqualSize<T>(a: set<T>, b: set<T>)
    requires a <= b && |a| == |b|
    ensures a == b
  {
    if a != b {
      var x :| x in b && x !in a;
      SubsetSize(a, b - {x});
    }
  }
}
