/** What an accepted proposal installs, task by task, and what plan versions say: a later
    installation is a newer one, and the newest synthesis is the one installed last. */
module PlanVersions {
  import opened Digraph
  import opened ExecutionPlan
  import opened Options
  import opened PlanInstall
  import opened PlanInvariant
  import opened PlanMachine
  import opened PlanRuns
  import opened SynthesisCoverage

  // ----- one installation -----

  /** The same task, except that a pending synthesis may have gained dependencies. */
  predicate UpToDeps(t: Task, u: Task) { t == u.(deps := t.deps) && u.deps <= t.deps && (t == u || t.status.Pending?) }

  lemma FinalIsMerged(f: Facts, p: Proposal, i: nat)
    requires UniqueIds(Merged(f, p)) && i < |Merged(f, p)|
    ensures |FinalTasks(f, p)| == |Merged(f, p)| && UpToDeps(FinalTasks(f, p)[i], Merged(f, p)[i])
  {
    if !First(f) { CompletionIsLocal(Merged(f, p), Latest(f, p)); }
  }

  /** What a proposed task is installed as: a task that had ended stays as it was, an
      unfinished one starts over under its old version, and a new one gets the new version. */
  lemma ProposedBecomes(f: Facts, p: Proposal, i: nat)
    requires UniqueIds(Merged(f, p)) && i < |p.tasks|
    ensures |FinalTasks(f, p)| >= |p.tasks|
    ensures var (t, q) := (FinalTasks(f, p)[i], p.tasks[i]);
            && t.id == q.id
            && (forall h :: h in f.plan.tasks && h.id == q.id && UniqueIds(f.plan.tasks) ==>
                  if h.status.Succeeded? || h.status.Failed? || h.status.Canceled? then t == h
                  else UpToDeps(t, q.(addedVersion := h.addedVersion, status := Pending, summary := "",
                                      resultRef := "")))
            && ((forall h :: h in f.plan.tasks ==> h.id != q.id) ==>
                  UpToDeps(t, q.(addedVersion := if f.plan.id == "" then 1 else f.plan.version + 1,
                                 status := Pending, summary := "", resultRef := "")))
  {
    FinalIsMerged(f, p, i);
    assert Merged(f, p)[i] == Adopted(f, p)[i];
    LookupMember(f.plan.tasks, p.tasks[i].id);
  }

  /** What was left out comes behind the proposed tasks, and is canceled if it had not ended. */
  lemma LeftOutBecomes(f: Facts, p: Proposal, t: Task)
    requires UniqueIds(Merged(f, p)) && t in FinalTasks(f, p) && t.id !in Ids(p.tasks)
    ensures exists h :: h in f.plan.tasks && h.id == t.id
              && UpToDeps(t, if h.status.Succeeded? || h.status.Failed? then h else h.(status := Canceled))
  {
    var i :| 0 <= i < |FinalTasks(f, p)| && FinalTasks(f, p)[i] == t;
    FinalLength(f, p);
    FinalIsMerged(f, p, i);
    var u := Merged(f, p)[i];
    if i < |p.tasks| { AdoptedId(f, p, i); }
    assert i >= |p.tasks|;
    assert u == Retained(Ids(p.tasks), f.plan.tasks)[i-|p.tasks|];
    RetainedMembers(Ids(p.tasks), f.plan.tasks, u);
  }

  /** And in the order of the old plan. */
  lemma {:induction false} LeftOutInOrder(kept: set<Id>, history: seq<Task>) returns (at: seq<nat>)
    ensures |at| == |Retained(kept, history)|
    ensures forall i :: 0 <= i < |at| ==>
              at[i] < |history| && history[at[i]].id !in kept
              && (var h := history[at[i]];
                  Retained(kept, history)[i]
                  == if h.status.Succeeded? || h.status.Failed? then h else h.(status := Canceled))
    ensures forall i, j :: 0 <= i < j < |at| ==> at[i] < at[j]
  {
    at := [];
    if history != [] {
      at := LeftOutInOrder(kept, history[..|history|-1]);
      if history[|history|-1].id !in kept { at := at + [|history|-1]; }
    }
  }

  lemma AdoptedId(f: Facts, p: Proposal, i: nat)
    requires i < |p.tasks|
    ensures Merged(f, p)[i].id == p.tasks[i].id && p.tasks[i].id in Ids(p.tasks)
  {
    assert Merged(f, p)[i] == Adopted(f, p)[i] && p.tasks[i] in p.tasks;
    LookupMember(f.plan.tasks, p.tasks[i].id);
  }

  lemma FinalLength(f: Facts, p: Proposal)
    requires UniqueIds(Merged(f, p))
    ensures |FinalTasks(f, p)| == |Merged(f, p)|
  {
    if !First(f) { CompletionIsLocal(Merged(f, p), Latest(f, p)); }
  }

  /** A re-plan is newer than the plan it replaces. */
  lemma ReplanIsNewer(f: Facts, cfg: Config, freshId: string, p: Proposal)
    ensures var plan := Installed(f, cfg, freshId, p).plan;
            && plan.id != "" && (f.plan.id != "" ==> plan.id == f.plan.id && plan.version > f.plan.version)
            && (f.plan.id == "" ==> plan.version == 1)
  {}

  /** Every other field of an installed plan. */
  lemma InstalledPlanIs(f: Facts, cfg: Config, freshId: string, p: Proposal)
    ensures var (plan, first) := (Installed(f, cfg, freshId, p).plan, f.plan.id == "");
            && plan.id == (if first then "plan-" + freshId else f.plan.id)
            && plan.version == (if first then 1 else f.plan.version + 1)
            && plan.goal == (if first then f.query else f.plan.goal)
            && plan.phase == (if first then Planning else Replanning)
            && plan.reason == p.reason && plan.round == f.round && plan.status == Running
            && plan.strategy == (if p.strategy == Parallel && !cfg.parallelEnabled then Sequential else p.strategy)
            && plan.tasks == FinalTasks(f, p)
  {}

  /** Which proposed tasks are admitted, given what the history knows under that id. */
  lemma AdmittedWhen(history: seq<Task>, denied: bool, blocked: bool, cfg: Config, t: Task)
    requires UniqueIds(history)
    ensures MayAdopt(history, denied, blocked, cfg, t)
            <==> && !Blank(t.title)
                 && (t.agent == DocumentOperation ==> cfg.document) && (t.agent == WebResearch ==> cfg.external)
                 && (forall h :: h in history && h.id == t.id ==> MayReplace(h, t, denied || blocked))
                 && (denied && (t.agent == WebResearch || t.agent == DocumentOperation) ==> t.id in Ids(history))
  {
    LookupMember(history, t.id);
  }

  /** An ended task may not change at all, an unfinished research task not after a refusal. */
  predicate MayReplace(h: Task, t: Task, refused: bool) {
    if h.status == Succeeded || h.status == Failed || h.status == Canceled then
      h.agent == t.agent && h.title == t.title && h.description == t.description && h.deps == t.deps
    else
      t.agent == SynthesisReview || !refused
      || (h.agent == t.agent && h.description == t.description && h.deps == t.deps)
  }

  function Places(ts: seq<Task>): (s: set<int>)
    ensures forall i :: i in s <==> 0 <= i < |ts| && ts[i].status.Pending?
  {
    set i | 0 <= i < |ts| && ts[i].status.Pending?
  }

  lemma {:induction false} UnfinishedCount(ts: seq<Task>)
    requires forall t :: t in ts ==> t.status.Pending? || t.status.Succeeded? || t.status.Failed? || t.status.Canceled?
    ensures Unfinished(Active(ts)) == |Places(ts)|
  {
    if ts != [] {
      var n := |ts| - 1;
      var last := ts[n];
      UnfinishedCount(ts[..n]);
      PlacesSnoc(ts);
      if Dead(last.status) { assert Active(ts[..n]) + [] == Active(ts[..n]); }
      if !Dead(last.status) { ActiveUnfoldsLeft(Active(ts[..n]), last); }
    }
  }

  lemma PlacesSnoc(ts: seq<Task>)
    requires ts != []
    ensures |Places(ts)| == |Places(ts[..|ts|-1])| + if ts[|ts|-1].status.Pending? then 1 else 0
  {
    var n := |ts| - 1;
    assert Places(ts) == Places(ts[..n]) + if ts[n].status.Pending? then {n} else {};
  }

  lemma AdoptedSettled(f: Facts, p: Proposal)
    ensures forall t :: t in Adopted(f, p) ==>
              t.status.Pending? || t.status.Succeeded? || t.status.Failed? || t.status.Canceled?
  {}

  /** What every accepted proposal keeps to: a reason for a re-plan, a limited number of unfinished
      tasks, a live synthesis, and only that one in a direct plan. */
  lemma AcceptedProposal(f: Facts, cfg: Config, freshId: string, p: Proposal)
    requires Acceptable(f, cfg, freshId, p)
    ensures f.plan.id != "" ==> !Blank(p.reason)
    ensures |Places(Adopted(f, p))| <= if cfg.maxPlanTasks > 0 then cfg.maxPlanTasks else 4
    ensures exists t :: t in Adopted(f, p) && t.agent == SynthesisReview && !t.status.Failed? && !t.status.Canceled?
    ensures p.strategy == Direct ==>
              forall i, j :: 0 <= i <= j < |p.tasks| && !Dead(Adopted(f, p)[i].status) && !Dead(Adopted(f, p)[j].status)
                ==> i == j && Adopted(f, p)[i].agent == SynthesisReview
  {
    AdoptedSettled(f, p);
    UnfinishedCount(Adopted(f, p));
    LatestLives(Adopted(f, p));
    if p.strategy == Direct { OneActive(Adopted(f, p)); }
  }

  lemma {:induction false} LatestLives(ts: seq<Task>)
    requires LatestSynthesis(ts).0 != ""
    ensures exists t :: t in ts && t.agent == SynthesisReview && !t.status.Failed? && !t.status.Canceled?
  {
    var n := |ts| - 1;
    if LatestSynthesis(ts[..n]).0 != "" {
      LatestLives(ts[..n]);
      var t :| t in ts[..n] && t.agent == SynthesisReview && !t.status.Failed? && !t.status.Canceled?;
      assert t in ts;
    } else {
      assert ts[n] in ts;
    }
  }

  lemma {:induction false} ActiveMembers(ts: seq<Task>, i: nat)
    requires i < |ts| && !Dead(ts[i].status)
    ensures ts[i] in Active(ts)
    ensures forall j :: i < j < |ts| && !Dead(ts[j].status) ==> |Active(ts)| >= 2
  {
    var n := |ts| - 1;
    if i < n {
      ActiveMembers(ts[..n], i);
      assert Active(ts[..n]) != [];
    }
  }

  lemma OneActive(ts: seq<Task>)
    requires |Active(ts)| == 1 && Active(ts)[0].agent.SynthesisReview?
    ensures forall i, j :: 0 <= i <= j < |ts| && !Dead(ts[i].status) && !Dead(ts[j].status)
              ==> i == j && ts[i].agent == SynthesisReview
  {
    forall i, j | 0 <= i <= j < |ts| && !Dead(ts[i].status) && !Dead(ts[j].status)
      ensures i == j && ts[i].agent == SynthesisReview
    {
      ActiveMembers(ts, i);
    }
  }

  // ----- every run -----

  /** No task is newer than the plan, and there is no task before there is a plan. */
  ghost predicate VersionsOk(s: State) {
    && (s.facts.plan.id == "" ==> Tasks(s) == [])
    && forall t :: t in Tasks(s) ==> t.addedVersion <= s.facts.plan.version
  }

  /** The tasks keep their versions, and so does the plan. */
  ghost predicate SameVersions(s: State, s': State) {
    && s'.facts.plan.version == s.facts.plan.version && s'.facts.plan.id == s.facts.plan.id
    && |Tasks(s')| == |Tasks(s)|
    && forall i :: 0 <= i < |Tasks(s)| ==>
         Tasks(s')[i].id == Tasks(s)[i].id && Tasks(s')[i].addedVersion == Tasks(s)[i].addedVersion
  }

  lemma OtherKeepsVersions(s: State, e: Event)
    requires Enabled(s, e) && !e.InstallPlan?
    ensures SameVersions(s, After(s, e))
  {
    match e
    case GuardTool(id, dangerous, rejected) => GuardKeepsPlan(s, id, dangerous, rejected);
    case RecordTool(id, t) =>
    case StartBatch =>
    case StartTask(_, _, _) =>
    case FinishTask(_, _) =>
    case AbandonTask(_) =>
    case FinishBatch =>
    case Interrupt =>
    case Resume =>
    case Complete(_) =>
    case Fail =>
  }

  lemma GuardKeepsPlan(s: State, id: Id, dangerous: bool, rejected: bool)
    ensures Guard(s, id, dangerous, rejected).facts.plan == s.facts.plan
  {}

  lemma Provenance(f: Facts, p: Proposal, t: Task)
    requires UniqueIds(Merged(f, p)) && UniqueIds(f.plan.tasks) && t in FinalTasks(f, p)
    ensures t.addedVersion == NextVersion(f)
            || exists h :: h in f.plan.tasks && h.id == t.id && h.addedVersion == t.addedVersion
    ensures t.id !in Ids(f.plan.tasks) ==> t.addedVersion == NextVersion(f)
  {
    if t.id !in Ids(p.tasks) {
      LeftOutBecomes(f, p, t);
    } else {
      FinalLength(f, p);
      var i :| 0 <= i < |FinalTasks(f, p)| && FinalTasks(f, p)[i] == t;
      FinalIsMerged(f, p, i);
      var u := Merged(f, p)[i];
      if i < |p.tasks| {
        assert u == Adopted(f, p)[i];
        LookupMember(f.plan.tasks, p.tasks[i].id);
      } else {
        assert u == Retained(Ids(p.tasks), f.plan.tasks)[i-|p.tasks|];
        RetainedMembers(Ids(p.tasks), f.plan.tasks, u);
      }
    }
  }

  lemma InstallVersionsOk(s: State, s': State, p: Proposal, cfg: Config, freshId: string)
    requires Inv(s) && VersionsOk(s) && UniqueIds(Merged(s.facts, p)) && s'.facts == Installed(s.facts, cfg, freshId, p)
    ensures VersionsOk(s')
  {
    ReplanIsNewer(s.facts, cfg, freshId, p);
    forall t | t in Tasks(s') ensures t.addedVersion <= s'.facts.plan.version { Provenance(s.facts, p, t); }
  }

  lemma SameVersionsOk(s: State, s': State)
    requires VersionsOk(s) && SameVersions(s, s')
    ensures VersionsOk(s')
  {
    forall t | t in Tasks(s') ensures t.addedVersion <= s'.facts.plan.version {
      var i :| 0 <= i < |Tasks(s')| && Tasks(s')[i] == t;
      assert Tasks(s)[i] in Tasks(s);
    }
  }

  lemma StepVersionsOk(s: State, e: Event)
    requires Inv(s) && VersionsOk(s) && Enabled(s, e)
    ensures VersionsOk(After(s, e))
  {
    if e.InstallPlan? {
      InstallKeeps(s, e);
      InstallVersionsOk(s, After(s, e), e.proposal, e.cfg, e.freshId);
    } else {
      OtherKeepsVersions(s, e);
      SameVersionsOk(s, After(s, e));
    }
  }

  lemma {:induction false} RunVersionsOk(states: seq<State>, events: seq<Event>, n: nat)
    requires IsRun(states, events) && n < |states|
    ensures VersionsOk(states[n])
  {
    if n > 0 {
      RunVersionsOk(states, events, n - 1);
      RunInvariant(states, events, n - 1);
      StepVersionsOk(states[n-1], events[n-1]);
    }
  }

  // ----- versions over a run -----

  /** A task keeps its version from step to step, and the plan version never falls. */
  ghost predicate Ages(s: State, s': State) {
    && (s.facts.plan.id != "" ==> s'.facts.plan.id != "" && s.facts.plan.version <= s'.facts.plan.version)
    && forall t :: t in Tasks(s) ==> exists t' :: t' in Tasks(s') && t'.id == t.id && t'.addedVersion == t.addedVersion
  }

  lemma SameAges(s: State, s': State)
    requires SameVersions(s, s')
    ensures Ages(s, s')
  {
    forall t | t in Tasks(s)
      ensures exists t' :: t' in Tasks(s') && t'.id == t.id && t'.addedVersion == t.addedVersion
    {
      var i :| 0 <= i < |Tasks(s)| && Tasks(s)[i] == t;
      assert Tasks(s')[i] in Tasks(s');
    }
  }

  lemma KeepsVersion(f: Facts, p: Proposal, t: Task)
    requires UniqueIds(Merged(f, p)) && UniqueIds(f.plan.tasks) && t in f.plan.tasks
    ensures exists t' :: t' in FinalTasks(f, p) && t'.id == t.id && t'.addedVersion == t.addedVersion
  {
    FinalLength(f, p);
    var i;
    if t.id in Ids(p.tasks) {
      var q :| q in p.tasks && q.id == t.id;
      i :| 0 <= i < |p.tasks| && p.tasks[i] == q;
      LookupMember(f.plan.tasks, t.id);
      assert Merged(f, p)[i] == Adopted(f, p)[i];
    } else {
      RetainedMembers(Ids(p.tasks), f.plan.tasks, Cancel(t));
      var k :| 0 <= k < |Retained(Ids(p.tasks), f.plan.tasks)| && Retained(Ids(p.tasks), f.plan.tasks)[k] == Cancel(t);
      i := |p.tasks| + k;
      assert Merged(f, p)[i] == Cancel(t);
    }
    FinalIsMerged(f, p, i);
    assert FinalTasks(f, p)[i] in FinalTasks(f, p);
  }

  lemma StepAges(s: State, e: Event)
    requires Inv(s) && Enabled(s, e)
    ensures Ages(s, After(s, e))
  {
    if e.InstallPlan? {
      InstallKeeps(s, e);
      ReplanIsNewer(s.facts, e.cfg, e.freshId, e.proposal);
      forall t | t in Tasks(s)
        ensures exists t' :: t' in Tasks(After(s, e)) && t'.id == t.id && t'.addedVersion == t.addedVersion
      {
        KeepsVersion(s.facts, e.proposal, t);
      }
    } else {
      OtherKeepsVersions(s, e);
      SameAges(s, After(s, e));
    }
  }

  lemma AgesTransitive(a: State, b: State, c: State)
    requires Ages(a, b) && Ages(b, c)
    ensures Ages(a, c)
  {}

  lemma {:induction false} ChainAges(states: seq<State>, i: nat, j: nat)
    requires i <= j < |states|
    requires forall n :: 0 <= n < |states| - 1 ==> Ages(states[n], states[n+1])
    ensures Ages(states[i], states[j])
    decreases j
  {
    if i < j {
      ChainAges(states, i, j - 1);
      assert Ages(states[j-1], states[j-1+1]);
      AgesTransitive(states[i], states[j-1], states[j]);
    }
  }

  lemma RunAges(states: seq<State>, events: seq<Event>, i: nat, j: nat)
    requires IsRun(states, events) && i <= j < |states|
    ensures Ages(states[i], states[j])
  {
    forall n | 0 <= n < |states| - 1 ensures Ages(states[n], states[n+1]) { StepOfRunAges(states, events, n); }
    ChainAges(states, i, j);
  }

  lemma StepOfRunAges(states: seq<State>, events: seq<Event>, n: nat)
    requires IsRun(states, events) && n < |events|
    ensures Ages(states[n], states[n+1])
  {
    RunInvariant(states, events, n);
    StepAges(states[n], events[n]);
  }

  /** The event with number `i` brings the task into the plan. */
  ghost predicate Brings(states: seq<State>, i: nat, id: Id) {
    i + 1 < |states| && id !in Ids(Tasks(states[i])) && id in Ids(Tasks(states[i+1]))
  }

  /** Only installations bring tasks, and they stamp them with a version above every older one. */
  lemma BroughtVersion(states: seq<State>, events: seq<Event>, i: nat, n: nat, t: Task)
    requires IsRun(states, events) && i < n < |states| && Brings(states, i, t.id) && t in Tasks(states[n])
    ensures events[i].InstallPlan? && t.addedVersion == states[i+1].facts.plan.version
    ensures states[i].facts.plan.id != "" ==> t.addedVersion > states[i].facts.plan.version
  {
    var (s, s') := (states[i], states[i+1]);
    RunInvariant(states, events, i);
    if !events[i].InstallPlan? {
      OtherKeepsVersions(s, events[i]);
      SameIds(s', s);
      assert false;
    }
    InstallKeeps(s, events[i]);
    ReplanIsNewer(s.facts, events[i].cfg, events[i].freshId, events[i].proposal);
    var u :| u in Tasks(s') && u.id == t.id;
    Provenance(s.facts, events[i].proposal, u);
    RunAges(states, events, i + 1, n);
    RunInvariant(states, events, n);
    OneById(Tasks(states[n]), t);
  }

  lemma SameIds(s: State, s': State)
    requires |Tasks(s)| == |Tasks(s')| && forall i :: 0 <= i < |Tasks(s)| ==> Tasks(s)[i].id == Tasks(s')[i].id
    ensures Ids(Tasks(s)) <= Ids(Tasks(s'))
  {
    forall t | t in Tasks(s) ensures t.id in Ids(Tasks(s')) {
      var i :| 0 <= i < |Tasks(s)| && Tasks(s)[i] == t;
      assert Tasks(s')[i] in Tasks(s');
    }
  }

  /** Every task of a run was brought by some installation. */
  lemma {:induction false} WasBrought(states: seq<State>, n: nat, id: Id) returns (i: nat)
    requires n < |states| && Tasks(states[0]) == [] && id in Ids(Tasks(states[n]))
    ensures i < n && Brings(states, i, id)
  {
    assert n > 0;
    i := n - 1;
    if id in Ids(Tasks(states[n-1])) { i := WasBrought(states, n - 1, id); }
  }

  lemma LaterIsNewer(states: seq<State>, events: seq<Event>, i: nat, j: nat, n: nat, t: Task, u: Task)
    requires IsRun(states, events) && i < j < n < |states|
    requires Brings(states, i, t.id) && Brings(states, j, u.id) && t in Tasks(states[n]) && u in Tasks(states[n])
    ensures t.addedVersion < u.addedVersion
  {
    BroughtVersion(states, events, i, n, t);
    BroughtVersion(states, events, j, n, u);
    ReplanIsNewer(states[i].facts, events[i].cfg, events[i].freshId, events[i].proposal);
    RunAges(states, events, i + 1, j);
  }

  /** A successful synthesis of the state with number `n` that came with the event `i`. */
  ghost predicate LastsAs(states: seq<State>, i: nat, n: nat, t: Task) {
    && n < |states| && Brings(states, i, t.id) && t in Tasks(states[n])
    && t.agent.SynthesisReview? && t.status.Succeeded?
  }

  /** The synthesis an answer rests on is the one that was installed last among those that
      succeeded: no other successful one came with a later installation. */
  lemma AnswerRestsOnLastInstalled(states: seq<State>, events: seq<Event>, n: nat) returns (last: Task, j: nat)
    requires IsRun(states, events) && n < |states| && states[n].stage == Finished
    ensures last in Tasks(states[n]) && FinalSynthesis(Tasks(states[n])) == Some(last)
    ensures last.agent.SynthesisReview? && last.status.Succeeded?
    ensures j < n && events[j].InstallPlan? && Brings(states, j, last.id)
    ensures forall i: nat, t :: i < n && LastsAs(states, i, n, t) ==> i <= j
  {
    var ts := Tasks(states[n]);
    RunInvariant(states, events, n);
    var response :| CompletionValid(states[n].facts, response) && states[n].final == Trim(response);
    FinalSynthesisIsNewest(ts);
    last := FinalSynthesis(ts).value;
    assert last.id in Ids(ts);
    j := WasBrought(states, n, last.id);
    BroughtVersion(states, events, j, n, last);
    forall i: nat, t | i < n && LastsAs(states, i, n, t) ensures i <= j {
      if j < i { LaterIsNewer(states, events, j, i, n, last, t); }
    }
  }
}
