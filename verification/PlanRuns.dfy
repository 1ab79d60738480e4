/** What holds over every run of the plan machine. */
module PlanRuns {
  import opened Digraph
  import opened ExecutionPlan
  import opened PlanInstall
  import opened PlanMachine
  import opened PlanInvariant

  ghost predicate IsRun(states: seq<State>, events: seq<Event>) {
    && |states| == |events| + 1 && Init(states[0])
    && forall i :: 0 <= i < |events| ==> Enabled(states[i], events[i]) && states[i+1] == After(states[i], events[i])
  }

  /** Every state of every run satisfies the invariant: the graph is acyclic without
      dangling edges, results match statuses, and no started task lacks a success below it. */
  lemma {:induction false} RunInvariant(states: seq<State>, events: seq<Event>, n: nat)
    requires IsRun(states, events) && n < |states|
    ensures Inv(states[n])
  {
    if n == 0 { InitHolds(states[0]); }
    else {
      RunInvariant(states, events, n - 1);
      StepKeeps(states[n-1], events[n-1]);
    }
  }

  /** A successful task has only successful ancestors. */
  lemma SuccessfulAncestors(s: State, a: Id, b: Id)
    requires Inv(s) && S(s, a).Succeeded? && Reaches(G(s), a, b)
    ensures S(s, b).Succeeded?
  {
    var done := set id | id in Ids(Tasks(s)) && S(s, id).Succeeded?;
    forall e | e in G(s) && e.0 in done ensures e.1 in done {
      assert S(s, e.1).Succeeded?;
      if e.1 !in Ids(Tasks(s)) { StatusOfAbsent(Tasks(s), e.1); }
    }
    if a !in Ids(Tasks(s)) { StatusOfAbsent(Tasks(s), a); }
    ReachesInClosed(G(s), done, a, b);
  }

  /** `later` preserves every ended task, every id, every settled result and every
      restriction flag of `earlier`. */
  ghost predicate Extends(earlier: State, later: State) {
    && (forall t :: t in Tasks(earlier) && Ended(t.status) ==> t in Tasks(later))
    && Ids(Tasks(earlier)) <= Ids(Tasks(later))
    && (forall id :: Settles(earlier.facts.results, id) ==>
          id in later.facts.results && later.facts.results[id] == earlier.facts.results[id])
    && (earlier.facts.denied ==> later.facts.denied)
    && (earlier.facts.blocked ==> later.facts.blocked)
    && (earlier.facts.retryUsed ==> later.facts.retryUsed)
  }

  lemma ExtendsTransitive(a: State, b: State, c: State)
    requires Extends(a, b) && Extends(b, c)
    ensures Extends(a, c)
  {}

  lemma UpdateExtends(ts: seq<Task>, out: seq<Task>)
    requires |out| == |ts|
    requires forall i :: 0 <= i < |ts| ==> out[i].id == ts[i].id && (Ended(ts[i].status) ==> out[i] == ts[i])
    ensures forall t :: t in ts && Ended(t.status) ==> t in out
    ensures Ids(ts) <= Ids(out)
  {
    forall t | t in ts ensures t.id in Ids(out) && (Ended(t.status) ==> t in out) {
      var k :| 0 <= k < |ts| && ts[k] == t;
      assert out[k] in out;
    }
  }

  lemma MoveExtends(s: State, out: seq<Task>, id: Id)
    requires UniqueIds(Tasks(s)) && !Ended(S(s, id)) && |out| == |Tasks(s)|
    requires forall i :: 0 <= i < |out| ==> out[i].id == Tasks(s)[i].id && (out[i].id != id ==> out[i] == Tasks(s)[i])
    ensures forall t :: t in Tasks(s) && Ended(t.status) ==> t in out
    ensures Ids(Tasks(s)) <= Ids(out)
  {
    forall i | 0 <= i < |out| && Ended(Tasks(s)[i].status) ensures out[i] == Tasks(s)[i] {
      StatusOfMember(Tasks(s), Tasks(s)[i]);
    }
    UpdateExtends(Tasks(s), out);
  }

  lemma InstallExtends(s: State, e: Event)
    requires Inv(s) && e.InstallPlan? && Enabled(s, e)
    ensures Extends(s, After(s, e))
  {
    var s' := After(s, e);
    InstallKeeps(s, e);
    forall t | t in Tasks(s) ensures t.id in Ids(Tasks(s')) && (Ended(t.status) ==> t in Tasks(s')) {
      HistorySurvives(s.facts, e.proposal, t);
    }
    forall id | id in Ids(Tasks(s)) ensures id in Ids(Tasks(s')) {
      var t :| t in Tasks(s) && t.id == id;
    }
    InstallKeepsFlags(s.facts, e.cfg, e.freshId, e.proposal);
  }

  lemma InstallKeepsFlags(f: Facts, cfg: Config, freshId: string, p: Proposal)
    ensures var g := Installed(f, cfg, freshId, p);
            g.results == f.results && g.denied == f.denied && g.blocked == f.blocked && (f.retryUsed ==> g.retryUsed)
  {}

  lemma StartingExtends(s: State, id: Id)
    requires Inv(s) && !Ended(S(s, id))
    ensures Extends(s, Start(s, id))
  {
    MoveExtends(s, WithStatus(Tasks(s), id, Running), id);
  }

  lemma StartExtends(s: State, e: Event)
    requires Inv(s) && e.StartTask? && Enabled(s, e)
    ensures Extends(s, After(s, e))
  {
    StartableStatus(s, e.id);
    StartingExtends(s, e.id);
  }

  lemma FinishExtends(s: State, e: Event)
    requires Inv(s) && e.FinishTask? && Enabled(s, e)
    ensures Extends(s, After(s, e))
  {
    TaskInFacts(s.batch, e.id);
    ResultStatuses(s, TaskIn(s.batch, e.id), e.outcome);
    MergeExtends(s, After(s, e), ResultOf(s, TaskIn(s.batch, e.id), e.outcome));
  }

  lemma MergeExtends(s: State, s': State, r: TaskResult)
    requires Inv(s) && r.taskId in s.inFlight
    requires Tasks(s') == WithResult(Tasks(s), r) && s'.facts.results == s.facts.results[r.taskId := r]
    requires s'.facts.denied == s.facts.denied && s'.facts.blocked == s.facts.blocked
               && s'.facts.retryUsed == s.facts.retryUsed
    ensures Extends(s, s')
  {
    InFlightDeps(s, r.taskId);
    assert !Settles(s.facts.results, r.taskId);
    MoveExtends(s, Tasks(s'), r.taskId);
  }

  /** The same tasks and results, and no restriction lifted. */
  predicate SameWork(s: State, s': State) {
    && Tasks(s') == Tasks(s) && s'.facts.results == s.facts.results && s'.facts.retryUsed == s.facts.retryUsed
    && (s.facts.denied ==> s'.facts.denied) && (s.facts.blocked ==> s'.facts.blocked)
  }

  lemma GuardSameWork(s: State, id: Id, dangerous: bool, rejected: bool)
    ensures SameWork(s, Guard(s, id, dangerous, rejected))
  {}

  lemma ToolSameWork(s: State, id: Id, t: ToolOutcome)
    ensures SameWork(s, AfterTool(s, id, t))
  {}

  lemma StageSameWork(s: State, phase: Phase, status: Status, stage: Stage)
    ensures SameWork(s, Enter(s, phase, status, stage)) && SameWork(s, Open(s))
  {}

  lemma QuietIsStill(s: State, e: Event)
    requires Enabled(s, e) && !e.InstallPlan? && !e.StartTask? && !e.FinishTask? && !e.Fail?
    ensures SameWork(s, After(s, e))
  {
    match e
    case GuardTool(id, dangerous, rejected) => GuardSameWork(s, id, dangerous, rejected);
    case RecordTool(id, t) => ToolSameWork(s, id, t);
    case StartBatch => StageSameWork(s, Replanning, Waiting, AtReplanner);
    case FinishBatch => StageSameWork(s, Replanning, s.facts.plan.status, AtReplanner);
    case Interrupt => StageSameWork(s, WaitingForUser, Waiting, Interrupted);
    case Resume => StageSameWork(s, Executing, Running, AtExecutor);
    case AbandonTask(_) =>
    case Complete(_) =>
  }

  lemma QuietExtends(s: State, e: Event)
    requires Enabled(s, e) && !e.InstallPlan? && !e.StartTask? && !e.FinishTask? && !e.Fail?
    ensures Extends(s, After(s, e))
  {
    QuietIsStill(s, e);
  }

  lemma StepExtends(s: State, e: Event)
    requires Inv(s) && Enabled(s, e)
    ensures Extends(s, After(s, e))
  {
    match e
    case InstallPlan(_, _, p) => InstallExtends(s, e);
    case StartTask(id, _, _) => StartExtends(s, e);
    case FinishTask(id, o) => FinishExtends(s, e);
    case Fail => UpdateExtends(Tasks(s), Tasks(After(s, e)));
    case _ => QuietExtends(s, e);
  }

  lemma RunExtends(states: seq<State>, events: seq<Event>, n: nat)
    requires IsRun(states, events) && n < |events|
    ensures Extends(states[n], states[n+1])
  {
    RunInvariant(states, events, n);
    StepExtends(states[n], events[n]);
  }

  lemma {:induction false} ChainExtends(states: seq<State>, i: nat, j: nat)
    requires i <= j < |states|
    requires forall n :: 0 <= n < |states| - 1 ==> Extends(states[n], states[n+1])
    ensures Extends(states[i], states[j])
    decreases j
  {
    if i < j {
      ChainExtends(states, i, j - 1);
      assert Extends(states[j-1], states[j-1+1]);
      ExtendsTransitive(states[i], states[j-1], states[j]);
    }
  }

  /** Over any run, nothing that ended ever changes or disappears, settled results
      are final, and no restriction is ever lifted. */
  lemma HistoryIsPermanent(states: seq<State>, events: seq<Event>, i: nat, j: nat)
    requires IsRun(states, events) && i <= j < |states|
    ensures Extends(states[i], states[j])
  {
    forall n | 0 <= n < |states| - 1 ensures Extends(states[n], states[n+1]) {
      RunExtends(states, events, n);
    }
    ChainExtends(states, i, j);
  }

  /** The event settles the task: it merges a success or an error for it. */
  ghost predicate SettlesTask(s: State, e: Event, id: Id) {
    e.FinishTask? && e.id == id && Enabled(s, e) && Settles(After(s, e).facts.results, id)
  }

  lemma SettlingOpens(s: State, e: Event, id: Id)
    requires Inv(s) && SettlesTask(s, e, id)
    ensures !Settles(s.facts.results, id)
  {
    InFlightDeps(s, id);
  }

  lemma OneTerminalResult(states: seq<State>, events: seq<Event>, i: nat, j: nat, id: Id)
    requires IsRun(states, events) && i < j < |events|
    requires SettlesTask(states[i], events[i], id)
    ensures !SettlesTask(states[j], events[j], id)
  {
    assert Settles(states[i+1].facts.results, id);
    HistoryIsPermanent(states, events, i + 1, j);
    RunInvariant(states, events, j);
    if SettlesTask(states[j], events[j], id) { SettlingOpens(states[j], events[j], id); }
  }

  ghost predicate InstallsResearch(s: State, e: Event) {
    e.InstallPlan? && AddsResearch(s.facts, e.proposal)
  }

  /** At most one accepted plan brings new research while an error result exists. */
  lemma OneRetry(states: seq<State>, events: seq<Event>, i: nat, j: nat)
    requires IsRun(states, events) && i < j < |events|
    requires InstallsResearch(states[i], events[i]) && HasError(states[i].facts.results)
    ensures !InstallsResearch(states[j], events[j])
  {
    HistoryIsPermanent(states, events, i + 1, j);
    var id :| id in states[i].facts.results && states[i].facts.results[id].status.Failed?;
    ErrorStays(states, events, i, j, id);
  }

  lemma ErrorStays(states: seq<State>, events: seq<Event>, i: nat, j: nat, id: Id)
    requires IsRun(states, events) && i <= j < |states|
    requires id in states[i].facts.results && states[i].facts.results[id].status.Failed?
    ensures id in states[j].facts.results && states[j].facts.results[id].status.Failed?
    ensures HasError(states[j].facts.results)
  {
    HistoryIsPermanent(states, events, i, j);
    assert Settles(states[i].facts.results, id);
  }

  /** Once an approval was denied or a permission blocked, no plan brings new research. */
  lemma NoResearchAfterRefusal(states: seq<State>, events: seq<Event>, i: nat, j: nat)
    requires IsRun(states, events) && i <= j < |events|
    requires states[i].facts.denied || states[i].facts.blocked
    ensures !InstallsResearch(states[j], events[j])
  {
    HistoryIsPermanent(states, events, i, j);
  }

  /** The task waits, and everything it depends on is in the plan and has succeeded. */
  ghost predicate CanStart(ts: seq<Task>, t: Task) {
    && (t.status.Pending? || t.status.Unset?)
    && forall d :: d in t.deps ==> exists u :: u in ts && u.id == d && u.status.Succeeded?
  }

  lemma StartsWhenReady(ts: seq<Task>, t: Task)
    requires UniqueIds(ts)
    ensures IsReady(ts, t) <==> CanStart(ts, t)
  {
    forall d | d in t.deps
      ensures StatusOf(ts, d).Succeeded? <==> exists u :: u in ts && u.id == d && u.status.Succeeded?
    {
      if d in Ids(ts) {
        var u :| u in ts && u.id == d;
        StatusOfMember(ts, u);
        OneById(ts, u);
      } else {
        StatusOfAbsent(ts, d);
      }
    }
  }

  lemma OneById(ts: seq<Task>, t: Task)
    requires UniqueIds(ts) && t in ts
    ensures forall u :: u in ts && u.id == t.id ==> u == t
  {}

  /** `out` are the tasks of `some` that can start, in their order, and `at` their positions. */
  ghost predicate StartsAt(ts: seq<Task>, some: seq<Task>, out: seq<Task>, at: seq<nat>) {
    && |at| == |out| && (forall i, j :: 0 <= i < j < |at| ==> at[i] < at[j])
    && (forall i :: 0 <= i < |at| ==> at[i] < |some| && some[at[i]] == out[i])
    && (forall k :: 0 <= k < |some| ==> (k in at <==> CanStart(ts, some[k])))
  }

  /** The ready tasks are the ones that can start, in plan order. */
  lemma {:induction false} ReadyInOrder(ts: seq<Task>, some: seq<Task>) returns (at: seq<nat>)
    requires UniqueIds(ts)
    ensures StartsAt(ts, some, ReadyAmong(ts, some), at)
  {
    at := [];
    if some != [] {
      var n := |some| - 1;
      at := ReadyInOrder(ts, some[..n]);
      StartsWhenReady(ts, some[n]);
      if IsReady(ts, some[n]) {
        StartsMore(ts, some, ReadyAmong(ts, some[..n]), at);
        at := at + [n];
      } else {
        StartsSame(ts, some, ReadyAmong(ts, some[..n]), at);
      }
    }
  }

  lemma StartsMore(ts: seq<Task>, some: seq<Task>, out: seq<Task>, at: seq<nat>)
    requires some != [] && StartsAt(ts, some[..|some|-1], out, at) && CanStart(ts, some[|some|-1])
    ensures StartsAt(ts, some, out + [some[|some|-1]], at + [|some| - 1])
  {}

  lemma StartsSame(ts: seq<Task>, some: seq<Task>, out: seq<Task>, at: seq<nat>)
    requires some != [] && StartsAt(ts, some[..|some|-1], out, at) && !CanStart(ts, some[|some|-1])
    ensures StartsAt(ts, some, out + [], at)
  {
    assert out + [] == out;
  }

  /** What a round runs: every task that can start, in plan order, if the plan is parallel,
      and otherwise only the first one. */
  lemma BatchOfRound(s: State) returns (all: seq<nat>)
    requires UniqueIds(Tasks(s)) && Enabled(s, StartBatch)
    ensures var (ts, batch) := (Tasks(s), After(s, StartBatch).batch);
            && StartsAt(ts, ts, Ready(ts), all)
            && (if s.facts.plan.strategy.Parallel? || all == [] then batch == Ready(ts)
                else batch == [ts[all[0]]] && CanStart(ts, ts[all[0]])
                     && forall k :: 0 <= k < all[0] ==> !CanStart(ts, ts[k]))
  {
    all := ReadyInOrder(Tasks(s), Tasks(s));
    if all != [] { FirstOf(Tasks(s), Ready(Tasks(s)), all); }
  }

  lemma FirstOf(ts: seq<Task>, out: seq<Task>, at: seq<nat>)
    requires at != [] && StartsAt(ts, ts, out, at)
    ensures CanStart(ts, ts[at[0]]) && forall k :: 0 <= k < at[0] ==> !CanStart(ts, ts[k])
  {
    assert at[0] in at;
    assert forall i :: 0 <= i < |at| ==> at[0] <= at[i];
    assert forall k :: 0 <= k < at[0] ==> k !in at;
  }

  /** A freshly installed plan always has a ready task, and readiness is lost only
      when nothing waits any more. */
  lemma InstalledPlanCanRun(s: State)
    requires Inv(s) && s.stage == PlanReady
    ensures Ready(Tasks(s)) != [] && NextBatch(s.facts.plan) != []
    ensures exists t :: t in Tasks(s) && Waits(t)
  {
    ReadyAmongMembers(Tasks(s), Tasks(s), Ready(Tasks(s))[0]);
  }

  /** After a batch in which every task succeeded, some remaining task is ready again
      unless none is left. */
  lemma BatchSucceeded(s: State)
    requires Inv(s) && AtWork(s) && NothingUnderway(s)
    requires forall b :: b in s.batch ==> PlanMachine.Succeeded(s.facts.results, b.id)
    ensures LiveDependencies(Tasks(s)) && Settled(Tasks(s))
  {
    forall id | id in BatchIds(s) ensures S(s, id).Succeeded? {
      var b :| b in s.batch && b.id == id;
    }
    LiveById(Tasks(s));
  }

  lemma SuccessfulBatchLeavesReadyTask(s: State)
    requires Inv(s) && Enabled(s, FinishBatch)
    requires forall b :: b in s.batch ==> PlanMachine.Succeeded(s.facts.results, b.id)
    ensures var ts := Tasks(After(s, FinishBatch));
            Ready(ts) == [] <==> forall t :: t in ts ==> !Waits(t)
  {
    SettledRests(s);
    BatchSucceeded(s);
    ReadyUnlessNothingWaits(Tasks(s));
    assert Tasks(After(s, FinishBatch)) == Tasks(s);
  }

  lemma {:induction false} FinalSynthesisIsNewest(ts: seq<Task>)
    ensures match FinalSynthesis(ts)
      case None => (forall t :: t in ts ==> !t.agent.SynthesisReview? || !t.status.Succeeded?)
      case Some(best) => (
        && best in ts && best.agent.SynthesisReview? && best.status.Succeeded?
        && (forall t :: t in ts && t.agent.SynthesisReview? && t.status.Succeeded? ==>
              t.addedVersion <= best.addedVersion)
        && exists k :: 0 <= k < |ts| && ts[k] == best
             && forall i :: k < i < |ts| && ts[i].agent.SynthesisReview? && ts[i].status.Succeeded? ==>
                  ts[i].addedVersion < best.addedVersion)
  {
    if ts != [] {
      var n := |ts| - 1;
      FinalSynthesisIsNewest(ts[..n]);
      assert ts == ts[..n] + [ts[n]];
      var best := FinalSynthesis(ts);
      if best.Some? && best.value != ts[n] {
        var k :| 0 <= k < n && ts[k] == best.value
                 && forall i :: k < i < n && ts[i].agent.SynthesisReview? && ts[i].status.Succeeded? ==>
                      ts[i].addedVersion < best.value.addedVersion;
      }
    }
  }

  /** A finished run: the answer rests on a newest successful synthesis that covers
      every successful research task, and everything that synthesis rests on succeeded. */
  lemma AnswerIsCovered(states: seq<State>, events: seq<Event>, n: nat) returns (last: Task)
    requires IsRun(states, events) && n < |states| && states[n].stage == Finished
    ensures var s := states[n];
      && last in Tasks(s) && last.agent.SynthesisReview? && last.status.Succeeded?
      && (forall t :: t in Tasks(s) && t.agent.SynthesisReview? && t.status.Succeeded? ==>
           t.addedVersion <= last.addedVersion)
      && (forall t :: t in Tasks(s) && !t.agent.SynthesisReview? && t.status.Succeeded? ==>
           Reaches(G(s), last.id, t.id))
      && (forall a :: Reaches(G(s), last.id, a) ==> S(s, a).Succeeded?)
      && (forall t :: t in Tasks(s) ==> Ended(t.status))
  {
    var s := states[n];
    RunInvariant(states, events, n);
    var response :| CompletionValid(s.facts, response) && s.final == Trim(response);
    FinalSynthesisIsNewest(Tasks(s));
    last := FinalSynthesis(Tasks(s)).value;
    StatusOfMember(Tasks(s), last);
    forall a | Reaches(G(s), last.id, a) ensures S(s, a).Succeeded? { SuccessfulAncestors(s, last.id, a); }
    forall t | t in Tasks(s) ensures Ended(t.status) {
      StatusOfMember(Tasks(s), t);
      assert t.id in Ids(Tasks(s));
    }
  }
}
