/** The plan-and-execute run as a state machine: every section the runtime executes
    under its lock is one atomic event. */
module PlanMachine {
  import opened Digraph
  import opened ExecutionPlan
  import opened Options
  import opened PlanInstall

  /** Which stage the runner is in. `Stopping` only waits for the failure exit. */
  datatype Stage = AtPlanner | PlanReady | AtExecutor | Interrupted | AtReplanner | Stopping | Finished | Aborted

  /** Tool calls of a task: how many succeeded, and which tools failed. */
  datatype Progress = Progress(succeeded: nat, failedTools: set<string>)

  datatype State = State(
    facts: Facts, stage: Stage, batch: seq<Task>, final: string,
    failures: map<Id, string>, argumentFailures: map<Id, string>, progress: map<Id, Progress>,
    inFlight: set<Id>,  // task agents between their start and their merge
    parked: set<Id>,    // interrupted task agents waiting to be resumed
    broken: bool)       // an infrastructure error already dooms the run

  /** What a task agent brings back: its answer, an error, or an interrupt. */
  datatype Outcome = Outcome(answer: string, error: string, interrupted: bool)

  /** One tool result as classified from its protocol fields. */
  datatype ToolOutcome = ToolOutcome(tool: string, failed: bool, blocked: bool, message: string,
                                     artifactRead: bool, correctable: bool, counted: bool)

  datatype Event =
    | InstallPlan(cfg: Config, freshId: string, proposal: Proposal)
    | StartBatch
    | StartTask(id: Id, role: Agent, resumed: bool)
    | GuardTool(id: Id, dangerous: bool, rejected: bool)
    | RecordTool(id: Id, tool: ToolOutcome)
    | FinishTask(id: Id, outcome: Outcome)
    | AbandonTask(id: Id)
    | FinishBatch
    | Interrupt
    | Resume
    | Complete(response: string)
    | Fail

  ghost predicate Init(s: State) {
    && s.stage == AtPlanner && s.facts.plan.id == "" && s.facts.plan.tasks == []
    && s.facts.results == map[] && s.batch == [] && s.final == ""
    && s.facts.unsafeTasks == {} && !s.facts.denied && !s.facts.blocked && !s.facts.retryUsed
    && s.inFlight == {} && s.parked == {} && !s.broken
  }

  function BatchIds(s: State): set<Id> { Ids(s.batch) }

  /** The batch of a round: all ready tasks, or the first one unless the plan is parallel. */
  function NextBatch(p: Plan): seq<Task> {
    var ready := Ready(p.tasks);
    if !p.strategy.Parallel? && |ready| > 1 then ready[..1] else ready
  }

  function WithStatus(ts: seq<Task>, id: Id, status: Status): (out: seq<Task>)
    ensures |out| == |ts|
  {
    seq(|ts|, i requires 0 <= i < |ts| => if ts[i].id == id then ts[i].(status := status) else ts[i])
  }

  function Truncate(s: string, limit: nat): string {
    if |s| <= limit then s else s[..limit] + "…"
  }

  function Record(t: Task, r: TaskResult): Task {
    t.(status := r.status, resultRef := r.taskId,
       summary := if r.error != "" then r.error else Truncate(r.summary, 500))
  }

  /** `mergeTaskResult` on the task slice. */
  function WithResult(ts: seq<Task>, r: TaskResult): (out: seq<Task>)
    ensures |out| == |ts|
  {
    seq(|ts|, i requires 0 <= i < |ts| => if ts[i].id == r.taskId then Record(ts[i], r) else ts[i])
  }

  function CancelAll(ts: seq<Task>): (out: seq<Task>)
    ensures |out| == |ts|
  {
    seq(|ts|, i requires 0 <= i < |ts| =>
      if ts[i].status.Pending? || ts[i].status.Running? || ts[i].status.Waiting?
      then ts[i].(status := Canceled) else ts[i])
  }

  function ReasonOf(m: map<Id, string>, id: Id): string { if id in m then m[id] else "" }

  predicate Succeeded(results: map<Id, TaskResult>, id: Id) {
    id in results && results[id].status.Succeeded?
  }

  predicate Settles(results: map<Id, TaskResult>, id: Id) {
    id in results && (results[id].status.Succeeded? || results[id].status.Failed?)
  }

  const TOOL_LIMITS := "some tool calls failed: "

  /** The result a finished agent merges: sticky failures win over the model's own claim. */
  function ResultOf(s: State, t: Task, o: Outcome): TaskResult {
    var summary := Trim(o.answer);
    var own :=
      if o.error != "" then TaskResult(t.id, t.agent, Failed, summary, o.error)
      else if o.interrupted then TaskResult(t.id, t.agent, Waiting, summary, "")
      else if summary == "" then TaskResult(t.id, t.agent, Failed, summary, "no result")
      else TaskResult(t.id, t.agent, ExecutionPlan.Succeeded, summary, "");
    var judged :=
      if ReasonOf(s.failures, t.id) != "" && !o.interrupted
      then own.(status := Failed, error := ReasonOf(s.failures, t.id))
      else if ReasonOf(s.argumentFailures, t.id) != "" && o.error == "" && !o.interrupted
      then own.(status := Failed, error := ReasonOf(s.argumentFailures, t.id))
      else own;
    if !judged.status.Succeeded? || t.id !in s.progress || s.progress[t.id].failedTools == {} then judged
    else if s.progress[t.id].succeeded == 0 then judged.(status := Failed, error := TOOL_LIMITS)
    else judged.(summary := TOOL_LIMITS + judged.summary)
  }

  function TaskIn(ts: seq<Task>, id: Id): Task
    requires id in Ids(ts)
  {
    if ts[0].id == id then ts[0] else (assert ts == [ts[0]] + ts[1..]; TaskIn(ts[1..], id))
  }

  predicate TerminalFact(s: State, id: Id) {
    ReasonOf(s.failures, id) != "" && (s.facts.denied || s.facts.blocked || id in s.facts.unsafeTasks)
  }

  /** The newest successful synthesis; the later one wins a tie. */
  function FinalSynthesis(ts: seq<Task>): Option<Task> {
    if ts == [] then None
    else
      var best, t := FinalSynthesis(ts[..|ts|-1]), ts[|ts|-1];
      if t.agent.SynthesisReview? && t.status.Succeeded? && (best.None? || t.addedVersion >= best.value.addedVersion)
      then Some(t) else best
  }

  /** `validatePECompletion`. */
  ghost predicate CompletionValid(f: Facts, response: string) {
    && !Blank(response)
    && (forall t :: t in f.plan.tasks ==> !t.status.Pending? && !t.status.Running? && !t.status.Waiting?)
    && match FinalSynthesis(f.plan.tasks)
       case None => false
       case Some(last) =>
         && last.id in f.results && !Blank(f.results[last.id].summary)
         && forall t :: t in f.plan.tasks && !t.agent.SynthesisReview? && t.status.Succeeded? ==>
              Reaches(GraphOf(f.plan.tasks), last.id, t.id)
  }

  /** Who may start: a batch task of the right role, not settled, not already running,
      all of whose dependencies have successful results. */
  predicate Admits(batch: seq<Task>, results: map<Id, TaskResult>, ts: seq<Task>, id: Id, role: Agent, resumed: bool) {
    && id in Ids(batch) && TaskIn(batch, id).agent == role
    && (id in results ==> results[id].status.Waiting?)
    && (resumed || !StatusOf(ts, id).Running?)
    && forall d :: d in TaskIn(batch, id).deps ==> Succeeded(results, d)
  }

  ghost predicate Enabled(s: State, e: Event) {
    match e
    case InstallPlan(cfg, freshId, p) =>
      s.stage in {AtPlanner, AtReplanner} && Acceptable(s.facts, cfg, freshId, p)
    case StartBatch => s.stage == PlanReady
    case StartTask(id, role, resumed) =>
      s.stage == AtExecutor && (resumed ==> id in s.parked)
      && Admits(s.batch, s.facts.results, s.facts.plan.tasks, id, role, resumed)
    case GuardTool(id, _, _) => s.stage == AtExecutor && id in s.inFlight
    case RecordTool(id, tool) => s.stage == AtExecutor && id in s.inFlight && WellReported(tool)
    case FinishTask(id, _) => s.stage == AtExecutor && id in s.inFlight && id in BatchIds(s)
    case AbandonTask(id) => s.stage == AtExecutor && id in s.inFlight
    case FinishBatch =>
      && s.stage == AtExecutor && s.inFlight == {} && !s.broken
      && forall t :: t in s.batch ==> Settles(s.facts.results, t.id)
    case Interrupt => s.stage == AtExecutor && s.inFlight == {} && s.parked != {} && !s.broken
    case Resume => s.stage == Interrupted
    case Complete(response) => s.stage == AtReplanner && CompletionValid(s.facts, response)
    case Fail => s.stage != Finished && s.stage != Aborted
  }

  ghost function After(s: State, e: Event): State
    requires Enabled(s, e)
  {
    match e
    case InstallPlan(cfg, freshId, p) => Installing(s, cfg, freshId, p)
    case StartBatch => Open(s)
    case StartTask(id, _, _) =>
      Start(s, id)
    case GuardTool(id, dangerous, rejected) =>
      Guard(s, id, dangerous, rejected)
    case RecordTool(id, t) => AfterTool(s, id, t)
    case FinishTask(id, o) =>
      Merge(s, id, ResultOf(s, TaskIn(s.batch, id), o), o.error != "")
    case AbandonTask(id) => s.(inFlight := s.inFlight - {id}, broken := true)
    case FinishBatch => Enter(s, Replanning, s.facts.plan.status, AtReplanner)
    case Interrupt => Enter(s, WaitingForUser, Waiting, Interrupted)
    case Resume => Enter(s, Executing, Running, AtExecutor)
    case Complete(response) => s.(final := Trim(response), stage := Finished)
    case Fail => Close(s)
  }

  ghost function Installing(s: State, cfg: Config, freshId: string, p: Proposal): State {
    s.(facts := Installed(s.facts, cfg, freshId, p), stage := PlanReady)
  }

  /** Another stage of the same plan: only its phase and status change. */
  function Enter(s: State, phase: Phase, status: Status, stage: Stage): State {
    s.(facts := s.facts.(plan := s.facts.plan.(phase := phase, status := status)), stage := stage)
  }

  function Open(s: State): State {
    var f, batch := s.facts, NextBatch(s.facts.plan);
    s.(facts := f.(round := f.round + 1, plan := f.plan.(round := f.round + 1, phase := Executing, status := Running)),
       batch := batch, stage := if batch == [] then Stopping else AtExecutor)
  }

  function Guard(s: State, id: Id, dangerous: bool, rejected: bool): State {
    if TerminalFact(s, id) || !dangerous then s
    else if rejected then
      s.(facts := s.facts.(unsafeTasks := s.facts.unsafeTasks + {id}, denied := true),
         failures := s.failures[id := "approval rejected"])
    else s.(facts := s.facts.(unsafeTasks := s.facts.unsafeTasks + {id}))
  }

  function Close(s: State): State {
    var f := s.facts;
    s.(facts := f.(plan := f.plan.(status := Failed, phase := FailedPhase, tasks := CancelAll(f.plan.tasks))),
       stage := Aborted, inFlight := {}, parked := {})
  }

  function Start(s: State, id: Id): State {
    s.(facts := s.facts.(plan := s.facts.plan.(tasks := WithStatus(s.facts.plan.tasks, id, Running))),
       inFlight := s.inFlight + {id}, parked := s.parked - {id})
  }

  function Merge(s: State, id: Id, r: TaskResult, fatal: bool): State {
    s.(facts := s.facts.(results := s.facts.results[id := r],
                         plan := s.facts.plan.(tasks := WithResult(s.facts.plan.tasks, r))),
       inFlight := s.inFlight - {id},
       parked := if r.status.Waiting? then s.parked + {id} else s.parked,
       broken := s.broken || fatal)
  }

  /** A failed tool result always carries a message. */
  predicate WellReported(t: ToolOutcome) { t.failed ==> t.message != "" }

  /** Recording a tool result touches the failure facts only, and never lifts a block. */
  function AfterTool(s: State, id: Id, t: ToolOutcome): (r: State)
    ensures r == s.(failures := r.failures, argumentFailures := r.argumentFailures, progress := r.progress,
                    facts := s.facts.(blocked := r.facts.blocked))
    ensures s.facts.blocked ==> r.facts.blocked
    ensures s.failures.Keys <= r.failures.Keys
  {
    if t.artifactRead && t.correctable then s.(argumentFailures := s.argumentFailures[id := t.message])
    else
      var s1 := s.(argumentFailures := if t.artifactRead then s.argumentFailures - {id} else s.argumentFailures,
                   progress := Tally(s.progress, id, t));
      if t.failed && (t.blocked || id in s.facts.unsafeTasks)
      then s1.(failures := s.failures[id := t.message], facts := s.facts.(blocked := s.facts.blocked || t.blocked))
      else s1
  }

  function Tally(progress: map<Id, Progress>, id: Id, t: ToolOutcome): map<Id, Progress> {
    var p := if id in progress then progress[id] else Progress(0, {});
    if t.artifactRead || !t.counted then progress
    else if t.failed then progress[id := p.(failedTools := p.failedTools + {t.tool})]
    else progress[id := p.(succeeded := p.succeeded + 1)]
  }
}
