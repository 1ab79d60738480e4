/** What the sections of a session leave behind, field by field. */
module PlanEffects {
  import opened Digraph
  import opened ExecutionPlan
  import opened PlanInstall
  import opened PlanMachine

  /** The task list with the tasks of that id changed, the others as they were. */
  ghost predicate OnlyTask(ts: seq<Task>, out: seq<Task>, id: Id, becomes: Task -> Task) {
    |out| == |ts| && forall i :: 0 <= i < |ts| ==> out[i] == if ts[i].id == id then becomes(ts[i]) else ts[i]
  }

  // ----- tools -----

  /** A task that failed for good is stopped; otherwise a dangerous tool marks it unsafe, and a
      rejected approval denies the session and is the task's failure. */
  lemma GuardLeaves(s: State, id: Id, dangerous: bool, rejected: bool)
    ensures var stopped := id in s.failures && s.failures[id] != ""
                           && (s.facts.denied || s.facts.blocked || id in s.facts.unsafeTasks);
            var t := Guard(s, id, dangerous, rejected);
            && (TerminalFact(s, id) <==> stopped)
            && (stopped || !dangerous ==> t == s)
            && (!stopped && dangerous ==>
                  t == s.(facts := s.facts.(unsafeTasks := s.facts.unsafeTasks + {id},
                                            denied := s.facts.denied || rejected),
                          failures := if rejected then s.failures[id := "approval rejected"] else s.failures))
  {}

  /** A read that can be corrected is only remembered; any other result clears it or is counted,
      and fails the task when a permission is missing or the task is unsafe. */
  lemma ToolLeaves(s: State, id: Id, t: ToolOutcome)
    ensures var correct := t.artifactRead && t.correctable;
            var fails := !correct && t.failed && (t.blocked || id in s.facts.unsafeTasks);
            var before := if id in s.progress then s.progress[id] else Progress(0, {});
            AfterTool(s, id, t)
            == s.(argumentFailures := if correct then s.argumentFailures[id := t.message]
                                      else if t.artifactRead then s.argumentFailures - {id}
                                      else s.argumentFailures,
                  progress := if t.artifactRead || !t.counted then s.progress
                              else if t.failed
                              then s.progress[id := Progress(before.succeeded, before.failedTools + {t.tool})]
                              else s.progress[id := Progress(before.succeeded + 1, before.failedTools)],
                  failures := if fails then s.failures[id := t.message] else s.failures,
                  facts := s.facts.(blocked := s.facts.blocked || (fails && t.blocked)))
  {}

  // ----- task agents -----

  /** Who may start: a task of the batch, for its own role, whose result is not settled, which is
      not running unless it is resumed, and whose dependencies all have successful results. */
  lemma AdmitsWhen(batch: seq<Task>, results: map<Id, TaskResult>, ts: seq<Task>, id: Id, role: Agent, resumed: bool)
    requires UniqueIds(batch) && UniqueIds(ts)
    ensures Admits(batch, results, ts, id, role, resumed)
            <==> && (exists b :: b in batch && b.id == id && b.agent == role
                       && forall d :: d in b.deps ==> d in results && results[d].status == Status.Succeeded)
                 && (id in results ==> results[id].status == Waiting)
                 && (resumed || forall t :: t in ts && t.id == id ==> t.status != Running)
  {
    if id in Ids(batch) { TaskOfBatch(batch, id); }
    if id in Ids(ts) {
      var t :| t in ts && t.id == id;
      StatusOfMember(ts, t);
      forall u | u in ts && u.id == id ensures u == t {}
    } else {
      StatusOfAbsent(ts, id);
    }
  }

  lemma {:induction false} TaskOfBatch(batch: seq<Task>, id: Id)
    requires UniqueIds(batch) && id in Ids(batch)
    ensures TaskIn(batch, id) in batch && forall b :: b in batch && b.id == id ==> b == TaskIn(batch, id)
  {
    var b :| b in batch && b.id == id;
    if batch[0].id != id {
      assert b in batch[1..];
      TaskOfBatch(batch[1..], id);
    }
  }

  /** A started task is running and in flight. */
  lemma StartLeaves(s: State, id: Id)
    ensures var t := Start(s, id);
            && OnlyTask(s.facts.plan.tasks, t.facts.plan.tasks, id, (u: Task) => u.(status := Running))
            && t == s.(facts := s.facts.(plan := s.facts.plan.(tasks := t.facts.plan.tasks)),
                       inFlight := s.inFlight + {id}, parked := s.parked - {id})
  {}

  /** What a summary keeps in the plan: its first 500 characters. */
  function Clipped(s: string): string { if |s| > 500 then s[..500] + "…" else s }

  /** A merged result is stored under its task, which takes status, reference, and its error or
      else its clipped summary from it. */
  lemma MergeLeaves(s: State, id: Id, r: TaskResult, fatal: bool)
    requires r.taskId == id
    ensures var t := Merge(s, id, r, fatal);
            && OnlyTask(s.facts.plan.tasks, t.facts.plan.tasks, id,
                        (u: Task) => Task(u.id, u.addedVersion, u.agent, u.title, u.description, u.deps, r.status, id,
                                          if r.error == "" then Clipped(r.summary) else r.error))
            && t == s.(facts := s.facts.(results := s.facts.results[id := r],
                                         plan := s.facts.plan.(tasks := t.facts.plan.tasks)),
                       inFlight := s.inFlight - {id},
                       parked := if r.status == Waiting then s.parked + {id} else s.parked,
                       broken := s.broken || fatal)
  {}

  // ----- stages -----

  /** A round counts up, freezes its batch and executes, or stops when there is nothing to run. */
  lemma RoundLeaves(s: State)
    requires Enabled(s, StartBatch)
    ensures var t, n := After(s, StartBatch), s.facts.round + 1;
            && t == s.(facts := s.facts.(round := n, plan := s.facts.plan.(round := n, phase := Executing,
                                                                           status := Running)),
                       batch := t.batch, stage := if t.batch == [] then Stopping else AtExecutor)
  {}

  /** Closing a round, an interrupt and a resumption only move phase, status and stage. */
  lemma StageLeaves(s: State, e: Event)
    requires Enabled(s, e) && (e.FinishBatch? || e.Interrupt? || e.Resume?)
    ensures var p := s.facts.plan;
            After(s, e)
            == match e
               case FinishBatch => s.(facts := s.facts.(plan := p.(phase := Replanning)), stage := AtReplanner)
               case Interrupt =>
                 s.(facts := s.facts.(plan := p.(phase := WaitingForUser, status := Waiting)), stage := Interrupted)
               case _ => s.(facts := s.facts.(plan := p.(phase := Executing, status := Running)), stage := AtExecutor)
  {}

  /** The answer is stored without the white space around it; nothing else changes. */
  lemma CompleteLeaves(s: State, response: string)
    requires Enabled(s, Event.Complete(response))
    ensures After(s, Event.Complete(response)) == s.(final := Trim(response), stage := Finished)
  {}

  /** The failure exit cancels what had not ended and gives up everything in flight. */
  lemma FailLeaves(s: State)
    requires Enabled(s, Fail)
    ensures var t, ts := After(s, Fail), s.facts.plan.tasks;
            && |t.facts.plan.tasks| == |ts|
            && (forall i :: 0 <= i < |ts| ==>
                  t.facts.plan.tasks[i]
                  == if ts[i].status == Pending || ts[i].status == Running || ts[i].status == Waiting
                     then ts[i].(status := Canceled) else ts[i])
            && t == s.(facts := s.facts.(plan := s.facts.plan.(status := Failed, phase := FailedPhase,
                                                               tasks := t.facts.plan.tasks)),
                       stage := Aborted, inFlight := {}, parked := {})
  {}
}
