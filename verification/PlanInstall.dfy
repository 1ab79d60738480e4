/** Installing a proposed plan: what a proposal becomes once it is merged with the
    history, and exactly when the merged plan is accepted. */
module PlanInstall {
  import opened Digraph
  import opened ExecutionPlan
  import opened Options
  import opened SynthesisCoverage

  datatype Config = Config(parallelEnabled: bool, maxPlanTasks: int, document: bool, external: bool)
  {
    function MaxTasks(): int { if maxPlanTasks > 0 then maxPlanTasks else 4 }
  }

  /** What the planner model may choose; every other plan field is overwritten. */
  datatype Proposal = Proposal(strategy: Strategy, reason: string, tasks: seq<Task>)

  datatype TaskResult = TaskResult(taskId: Id, agent: Agent, status: Status, summary: string, error: string)

  /** The session facts an installation depends on. */
  datatype Facts = Facts(plan: Plan, results: map<Id, TaskResult>, query: string, round: int,
                         retryUsed: bool, unsafeTasks: set<Id>, denied: bool, blocked: bool)

  predicate Ended(s: Status) { s.Succeeded? || s.Failed? || s.Canceled? }

  function Lookup(ts: seq<Task>, id: Id): Option<Task> {
    if ts == [] then None
    else if ts[|ts|-1].id == id then Some(ts[|ts|-1])
    else Lookup(ts[..|ts|-1], id)
  }

  lemma {:induction false} LookupMember(ts: seq<Task>, id: Id)
    ensures Lookup(ts, id).Some? <==> id in Ids(ts)
    ensures Lookup(ts, id).Some? ==> Lookup(ts, id).value in ts && Lookup(ts, id).value.id == id
    ensures UniqueIds(ts) ==> forall t :: t in ts && t.id == id ==> Lookup(ts, id) == Some(t)
  {
    if ts != [] {
      var init, last := ts[..|ts|-1], ts[|ts|-1];
      LookupMember(init, id);
      assert ts == init + [last];
      assert last in ts;
      assert Ids(ts) == Ids(init) + {last.id};
    }
  }

  /** A terminal task is taken over as it is; an unfinished one keeps its version
      but restarts; a new one is stamped with the version being installed. */
  function Adopt(prior: Option<Task>, t: Task, version: int): Task {
    match prior
    case Some(p) =>
      if Ended(p.status) then p
      else t.(addedVersion := p.addedVersion, status := Pending, summary := "", resultRef := "")
    case None => t.(addedVersion := version, status := Pending, summary := "", resultRef := "")
  }

  predicate SameDefinition(p: Task, t: Task) {
    p.agent == t.agent && p.title == t.title && p.description == t.description && p.deps == t.deps
  }

  predicate MayAdopt(history: seq<Task>, denied: bool, blocked: bool, cfg: Config, t: Task) {
    && !Blank(t.title)
    && (t.agent.DocumentOperation? ==> cfg.document)
    && (t.agent.WebResearch? ==> cfg.external)
    && match Lookup(history, t.id)
       case Some(p) =>
         if Ended(p.status) then SameDefinition(p, t)
         else t.agent.SynthesisReview? || !(denied || blocked)
              || (p.agent == t.agent && p.description == t.description && p.deps == t.deps)
       case None => denied ==> !t.agent.WebResearch? && !t.agent.DocumentOperation?
  }

  function AdoptAll(history: seq<Task>, ts: seq<Task>, version: int): (out: seq<Task>)
    ensures |out| == |ts|
  {
    seq(|ts|, i requires 0 <= i < |ts| => Adopt(Lookup(history, ts[i].id), ts[i], version))
  }

  function Cancel(t: Task): Task { if Ended(t.status) then t else t.(status := Canceled) }

  /** History the proposal leaves out stays in the plan; what had not ended is canceled. */
  function Retained(kept: set<Id>, history: seq<Task>): seq<Task> {
    if history == [] then []
    else
      var last := history[|history|-1];
      Retained(kept, history[..|history|-1]) + if last.id in kept then [] else [Cancel(last)]
  }

  function Active(ts: seq<Task>): seq<Task> {
    if ts == [] then []
    else Active(ts[..|ts|-1]) + if Dead(ts[|ts|-1].status) then [] else [ts[|ts|-1]]
  }

  function Unfinished(ts: seq<Task>): nat {
    if ts == [] then 0
    else Unfinished(ts[..|ts|-1]) + if ts[|ts|-1].status.Succeeded? then 0 else 1
  }

  /** Id and version of the newest live synthesis; the later one wins a tie. */
  function LatestSynthesis(ts: seq<Task>): (Id, int) {
    if ts == [] then ("", 0)
    else
      var (id, version) := LatestSynthesis(ts[..|ts|-1]);
      var t := ts[|ts|-1];
      if !Dead(t.status) && t.agent.SynthesisReview? && (id == "" || t.addedVersion >= version)
      then (t.id, t.addedVersion) else (id, version)
  }

  lemma {:induction false} LatestSynthesisIsNewest(ts: seq<Task>)
    requires forall t :: t in ts ==> t.id != ""
    ensures var (id, version) := LatestSynthesis(ts);
      && (id == "" <==> forall t :: t in ts ==> Dead(t.status) || !t.agent.SynthesisReview?)
      && (id != "" ==> exists k :: NewestAt(ts, k) && ts[k].id == id && ts[k].addedVersion == version)
      && (forall t :: t in ts && !Dead(t.status) && t.agent.SynthesisReview? ==> t.addedVersion <= version)
  {
    if ts != [] {
      var init, last := ts[..|ts|-1], ts[|ts|-1];
      assert ts == init + [last];
      assert last in ts && forall t :: t in init ==> t in ts;
      LatestSynthesisIsNewest(init);
      var (id, version) := LatestSynthesis(ts);
      if id != "" {
        if LatestSynthesis(init) == (id, version) && !NewestAt(ts, |ts| - 1) {
          var k :| NewestAt(init, k) && init[k].id == id && init[k].addedVersion == version;
          assert NewestAt(ts, k);
        } else {
          assert NewestAt(ts, |ts| - 1);
        }
      }
    }
  }

  /** A live synthesis than which none is newer, and none behind it as new. */
  predicate NewestAt(ts: seq<Task>, k: int) {
    && 0 <= k < |ts| && !Dead(ts[k].status) && ts[k].agent.SynthesisReview?
    && (forall i :: 0 <= i < |ts| && !Dead(ts[i].status) && ts[i].agent.SynthesisReview? ==>
          ts[i].addedVersion <= ts[k].addedVersion)
    && (forall i :: k < i < |ts| && !Dead(ts[i].status) && ts[i].agent.SynthesisReview? ==>
          ts[i].addedVersion < ts[k].addedVersion)
  }

  predicate First(f: Facts) { f.plan.id == "" }

  function NextVersion(f: Facts): int { if First(f) then 1 else f.plan.version + 1 }

  function Adopted(f: Facts, p: Proposal): seq<Task> {
    AdoptAll(f.plan.tasks, p.tasks, NextVersion(f))
  }

  function Merged(f: Facts, p: Proposal): seq<Task> {
    Adopted(f, p) + Retained(Ids(p.tasks), f.plan.tasks)
  }

  function Latest(f: Facts, p: Proposal): Id { LatestSynthesis(Adopted(f, p)).0 }

  ghost function FinalTasks(f: Facts, p: Proposal): seq<Task> {
    if First(f) then Merged(f, p) else Completed(Merged(f, p), Latest(f, p))
  }

  function PlanWith(f: Facts, cfg: Config, freshId: string, p: Proposal, tasks: seq<Task>): Plan {
    Plan(if First(f) then "plan-" + freshId else f.plan.id,
         NextVersion(f),
         if First(f) then Planning else Replanning,
         p.reason, f.round,
         if First(f) then f.query else f.plan.goal,
         if !cfg.parallelEnabled && p.strategy.Parallel? then Sequential else p.strategy,
         Running, tasks)
  }

  ghost predicate BringsResearch(history: seq<Task>, ts: seq<Task>) {
    exists t :: t in ts && t.id !in Ids(history) && !t.agent.SynthesisReview?
  }

  ghost predicate AddsResearch(f: Facts, p: Proposal) {
    BringsResearch(f.plan.tasks, p.tasks)
  }

  predicate HasError(results: map<Id, TaskResult>) {
    exists id :: id in results && results[id].status.Failed?
  }

  /** New research is barred after a denial or block, after an unsafe failure, and
      after a failure whose one retry was used. */
  predicate ResearchAllowed(f: Facts) {
    && !f.blocked && !f.denied
    && (forall id :: id in f.results && f.results[id].status.Failed? ==> id !in f.unsafeTasks)
    && (HasError(f.results) ==> !f.retryUsed)
  }

  ghost predicate Covered(ts: seq<Task>, synthesis: Id) {
    forall t :: t in ts && Research(t) ==> Reaches(GraphOf(ts), synthesis, t.id)
  }

  /** The proposal merges with the history into a valid plan graph. */
  ghost predicate Normalizable(f: Facts, cfg: Config, freshId: string, p: Proposal) {
    && UniqueIds(p.tasks)
    && AllMayAdopt(f.plan.tasks, f.denied, f.blocked, cfg, p.tasks)
    && Unfinished(Active(Adopted(f, p))) <= cfg.MaxTasks()
    && FieldsValid(PlanWith(f, cfg, freshId, p, Merged(f, p)), 0)
    && WellFormedGraph(Merged(f, p))
    && Latest(f, p) != ""
    && WellFormedGraph(FinalTasks(f, p))
  }

  /** Exactly when a proposal is accepted. */
  ghost predicate Acceptable(f: Facts, cfg: Config, freshId: string, p: Proposal) {
    && (!First(f) ==> !Blank(p.reason))
    && Normalizable(f, cfg, freshId, p)
    && Covered(FinalTasks(f, p), Latest(f, p))
    && LiveDependencies(FinalTasks(f, p))
    && (AddsResearch(f, p) ==> ResearchAllowed(f))
    && (p.strategy.Direct? ==> |Active(Adopted(f, p))| == 1 && Active(Adopted(f, p))[0].agent.SynthesisReview?)
    && Ready(FinalTasks(f, p)) != []
  }

  /** The facts after a successful installation. */
  ghost function Installed(f: Facts, cfg: Config, freshId: string, p: Proposal): Facts {
    f.(plan := PlanWith(f, cfg, freshId, p, FinalTasks(f, p)),
       retryUsed := f.retryUsed || (AddsResearch(f, p) && HasError(f.results)))
  }

  lemma {:induction false} ActiveUnfoldsLeft(ts: seq<Task>, t: Task)
    ensures Active(ts + [t]) == Active(ts) + if Dead(t.status) then [] else [t]
    ensures Unfinished(ts + [t]) == Unfinished(ts) + if t.status.Succeeded? then 0 else 1
    ensures LatestSynthesis(ts + [t]) ==
            var (id, version) := LatestSynthesis(ts);
            if !Dead(t.status) && t.agent.SynthesisReview? && (id == "" || t.addedVersion >= version)
            then (t.id, t.addedVersion) else (id, version)
  {
    assert (ts + [t])[..|ts|] == ts;
  }

  /** One proposed task: the per-task rules and the record that replaces it. */
  method AdoptTask(history: seq<Task>, known: map<Id, Task>, denied: bool, blocked: bool, cfg: Config, t: Task,
                   version: int)
    returns (ok: bool, next: Task, newResearch: bool)
    requires forall id :: Lookup(history, id) == if id in known then Some(known[id]) else None
    ensures ok <==> MayAdopt(history, denied, blocked, cfg, t)
    ensures ok ==> next == Adopt(Lookup(history, t.id), t, version)
    ensures ok ==> (newResearch <==> t.id !in Ids(history) && !t.agent.SynthesisReview?)
  {
    next, newResearch := t, false;
    if Blank(t.title) { return false, t, false; }
    if t.agent.DocumentOperation? && !cfg.document { return false, t, false; }
    if t.agent.WebResearch? && !cfg.external { return false, t, false; }
    LookupMember(history, t.id);
    if t.id in known {
      var previous := known[t.id];
      if Ended(previous.status) {
        if !SameDefinition(previous, t) { return false, t, false; }
        next := previous;
      } else {
        if !t.agent.SynthesisReview? && (denied || blocked)
           && (previous.agent != t.agent || previous.description != t.description || previous.deps != t.deps) {
          return false, t, false;
        }
        next := t.(addedVersion := previous.addedVersion, status := Pending, summary := "", resultRef := "");
      }
    } else {
      next := t.(addedVersion := version, status := Pending, summary := "", resultRef := "");
      newResearch := !t.agent.SynthesisReview?;
      if denied && (t.agent.WebResearch? || t.agent.DocumentOperation?) { return false, t, false; }
    }
    ok := true;
  }

  ghost predicate AllMayAdopt(history: seq<Task>, denied: bool, blocked: bool, cfg: Config, ts: seq<Task>) {
    forall t :: t in ts ==> MayAdopt(history, denied, blocked, cfg, t)
  }

  /** The active tasks and the newest synthesis, with one more task. */
  method Track(ghost merged: seq<Task>, active: seq<Task>, latest: Id, latestVersion: int, next: Task)
    returns (active': seq<Task>, latest': Id, latestVersion': int)
    requires active == Active(merged) && (latest, latestVersion) == LatestSynthesis(merged)
    ensures active' == Active(merged + [next]) && (latest', latestVersion') == LatestSynthesis(merged + [next])
  {
    ActiveUnfoldsLeft(merged, next);
    active', latest', latestVersion' := active, latest, latestVersion;
    if !next.status.Canceled? && !next.status.Failed? {
      active' := active + [next];
      if next.agent.SynthesisReview? && (latest == "" || next.addedVersion >= latestVersion) {
        latest', latestVersion' := next.id, next.addedVersion;
      }
    }
  }

  /** The first loop of `installPlan`. */
  method MergeProposal(history: seq<Task>, denied: bool, blocked: bool, cfg: Config, proposed: seq<Task>, version: int)
    returns (ok: bool, merged: seq<Task>, active: seq<Task>, latest: Id, newResearch: bool)
    ensures ok <==> UniqueIds(proposed) && AllMayAdopt(history, denied, blocked, cfg, proposed)
    ensures ok ==> merged == AdoptAll(history, proposed, version)
    ensures ok ==> active == Active(merged) && latest == LatestSynthesis(merged).0
    ensures ok ==> (newResearch <==> BringsResearch(history, proposed))
  {
    merged, active, latest, newResearch := [], [], "", false;
    var known := Index(history);
    var seen: set<Id> := {};
    var latestVersion := 0;
    for i := 0 to |proposed|
      invariant merged == AdoptAll(history, proposed[..i], version)
      invariant seen == Ids(proposed[..i]) && UniqueIds(proposed[..i])
      invariant AllMayAdopt(history, denied, blocked, cfg, proposed[..i])
      invariant active == Active(merged) && (latest, latestVersion) == LatestSynthesis(merged)
      invariant newResearch <==> BringsResearch(history, proposed[..i])
    {
      var t := proposed[i];
      ghost var before := proposed[..i];
      assert proposed[..i+1] == before + [t];
      SnocFacts(history, denied, blocked, cfg, before, t);
      AdoptSnoc(history, before, t, version);
      if t.id in seen {
        DuplicateId(proposed, i);
        return false, [], [], "", false;
      }
      seen := seen + {t.id};
      var fine, next, bringsOne := AdoptTask(history, known, denied, blocked, cfg, t, version);
      if !fine {
        assert t in proposed;
        return false, [], [], "", false;
      }
      active, latest, latestVersion := Track(merged, active, latest, latestVersion, next);
      merged := merged + [next];
      newResearch := newResearch || bringsOne;
    }
    assert proposed[..|proposed|] == proposed;
    ok := true;
  }

  lemma AdoptSnoc(history: seq<Task>, ts: seq<Task>, t: Task, version: int)
    ensures AdoptAll(history, ts + [t], version)
            == AdoptAll(history, ts, version) + [Adopt(Lookup(history, t.id), t, version)]
  {}

  lemma SnocFacts(history: seq<Task>, denied: bool, blocked: bool, cfg: Config, ts: seq<Task>, t: Task)
    ensures Ids(ts + [t]) == Ids(ts) + {t.id}
    ensures UniqueIds(ts + [t]) <==> UniqueIds(ts) && t.id !in Ids(ts)
    ensures AllMayAdopt(history, denied, blocked, cfg, ts + [t]) <==>
            AllMayAdopt(history, denied, blocked, cfg, ts) && MayAdopt(history, denied, blocked, cfg, t)
    ensures BringsResearch(history, ts + [t]) <==>
            BringsResearch(history, ts) || (t.id !in Ids(history) && !t.agent.SynthesisReview?)
  {
    var all := ts + [t];
    assert forall u :: u in all <==> u in ts || u == t;
    if UniqueIds(all) {
      assert all[..|ts|] == ts;
      assert forall i, j :: 0 <= i < j < |ts| ==> all[i] == ts[i] && all[j] == ts[j];
    }
    if t.id in Ids(ts) {
      var u :| u in ts && u.id == t.id;
      var k :| 0 <= k < |ts| && ts[k] == u;
      assert all[k].id == all[|ts|].id;
    }
    if UniqueIds(ts) && t.id !in Ids(ts) {
      forall i, j | 0 <= i < j < |all| ensures all[i].id != all[j].id {
        assert all[i] in ts;
      }
    }
  }

  lemma DuplicateId(ts: seq<Task>, i: nat)
    requires i < |ts| && ts[i].id in Ids(ts[..i])
    ensures !UniqueIds(ts)
  {
    var u :| u in ts[..i] && u.id == ts[i].id;
    var k :| 0 <= k < i && ts[k] == u;
  }

  /** Tasks by id; a later task wins. */
  method Index(ts: seq<Task>) returns (byId: map<Id, Task>)
    ensures forall id :: Lookup(ts, id) == if id in byId then Some(byId[id]) else None
  {
    byId := map[];
    for i := 0 to |ts|
      invariant forall id :: Lookup(ts[..i], id) == if id in byId then Some(byId[id]) else None
    {
      assert ts[..i+1][..i] == ts[..i];
      byId := byId[ts[i].id := ts[i]];
    }
    assert ts[..|ts|] == ts;
  }

  /** The second loop of `installPlan`: append what the proposal left out. */
  method RetainHistory(merged: seq<Task>, kept: set<Id>, history: seq<Task>) returns (out: seq<Task>)
    ensures out == merged + Retained(kept, history)
  {
    out := merged;
    for i := 0 to |history|
      invariant out == merged + Retained(kept, history[..i])
    {
      assert history[..i+1][..i] == history[..i];
      var previous := history[i];
      if previous.id !in kept {
        if !Ended(previous.status) { previous := previous.(status := Canceled); }
        out := out + [previous];
      }
    }
    assert history[..|history|] == history;
  }

  method CountUnfinished(active: seq<Task>) returns (count: nat)
    ensures count == Unfinished(active)
  {
    count := 0;
    for i := 0 to |active|
      invariant count == Unfinished(active[..i])
    {
      assert active[..i+1][..i] == active[..i];
      if !active[i].status.Succeeded? { count := count + 1; }
    }
    assert active[..|active|] == active;
  }

  /** The coverage loop: live research must be an ancestor of the synthesis and no
      live task may depend on a dead one. */
  method CheckCoverage(ts: seq<Task>, latest: Id) returns (ok: bool)
    requires UniqueIds(ts)
    ensures ok <==> Covered(ts, latest) && LiveDependencies(ts)
  {
    var byId := Index(ts);
    var graph := map id | id in byId :: byId[id].deps;
    IndexTabulates(ts, byId);
    TabulatedEdges(graph, ts);
    var ancestors := Ancestors(graph, latest);
    for i := 0 to |ts|
      invariant forall t :: t in ts[..i] && Research(t) ==> t.id in ancestors
      invariant forall t :: t in ts[..i] && !Dead(t.status) ==> forall d :: d in t.deps ==> !Dead(StatusOf(ts, d))
    {
      var t := ts[i];
      assert t in ts;
      if t.status.Canceled? || t.status.Failed? { continue; }
      if !t.agent.SynthesisReview? && t.id !in ancestors { return false; }
      var alive := CheckDependencies(ts, byId, t);
      if !alive { return false; }
    }
    return true;
  }

  /** None of the task's dependencies has failed or been canceled. */
  method CheckDependencies(ts: seq<Task>, byId: map<Id, Task>, t: Task) returns (ok: bool)
    requires forall id :: Lookup(ts, id) == if id in byId then Some(byId[id]) else None
    ensures ok <==> forall d :: d in t.deps ==> !Dead(StatusOf(ts, d))
  {
    for j := 0 to |t.deps|
      invariant forall d :: d in t.deps[..j] ==> !Dead(StatusOf(ts, d))
    {
      var dep := t.deps[j];
      assert dep in t.deps;
      LookupStatus(ts, dep);
      if dep in byId && (byId[dep].status.Failed? || byId[dep].status.Canceled?) { return false; }
    }
    return true;
  }

  lemma {:induction false} LookupStatus(ts: seq<Task>, id: Id)
    ensures StatusOf(ts, id) == match Lookup(ts, id) case Some(t) => t.status case None => Unset
  {
    if ts != [] && ts[|ts|-1].id != id { LookupStatus(ts[..|ts|-1], id); }
  }

  lemma IndexTabulates(ts: seq<Task>, byId: map<Id, Task>)
    requires UniqueIds(ts)
    requires forall id :: Lookup(ts, id) == if id in byId then Some(byId[id]) else None
    ensures Tabulated(map id | id in byId :: byId[id].deps, ts)
  {
    forall id ensures id in byId <==> id in Ids(ts) { LookupMember(ts, id); }
    forall t | t in ts ensures byId[t.id] == t { LookupMember(ts, t.id); }
  }

  /** The two passes over the results that guard new research; `retryUsed` is the new flag. */
  method CheckRetry(f: Facts) returns (ok: bool, retryUsed: bool)
    ensures ok <==> ResearchAllowed(f)
    ensures ok ==> (retryUsed <==> f.retryUsed || HasError(f.results))
  {
    retryUsed := f.retryUsed;
    if f.blocked || f.denied { return false, retryUsed; }
    var rest := f.results.Keys;
    while rest != {}
      invariant rest <= f.results.Keys
      invariant forall id :: id in f.results.Keys - rest && f.results[id].status.Failed? ==> id !in f.unsafeTasks
    {
      var id :| id in rest;
      if f.results[id].status.Failed? && id in f.unsafeTasks { return false, retryUsed; }
      rest := rest - {id};
    }
    rest := f.results.Keys;
    while rest != {}
      invariant rest <= f.results.Keys
      invariant forall id :: id in f.results.Keys - rest ==> !f.results[id].status.Failed?
    {
      var id :| id in rest;
      if f.results[id].status.Failed? {
        if id in f.unsafeTasks || f.retryUsed || f.blocked || f.denied { return false, retryUsed; }
        return true, true;
      }
      rest := rest - {id};
    }
    return true, retryUsed;
  }

  /** Merge, bound, validate and complete: everything `installPlan` decides before coverage. */
  method Normalize(f: Facts, cfg: Config, freshId: string, next: Proposal)
    returns (ok: bool, p: Plan, active: seq<Task>, latest: Id, newResearch: bool)
    ensures ok <==> Normalizable(f, cfg, freshId, next)
    ensures ok ==> p == PlanWith(f, cfg, freshId, next, FinalTasks(f, next))
    ensures ok ==> active == Active(Adopted(f, next)) && latest == Latest(f, next)
    ensures ok ==> (newResearch <==> AddsResearch(f, next))
  {
    p := f.plan;
    var merged;
    ok, merged, active, latest, newResearch :=
      MergeProposal(f.plan.tasks, f.denied, f.blocked, cfg, next.tasks, NextVersion(f));
    if !ok { return; }
    merged := RetainHistory(merged, Ids(next.tasks), f.plan.tasks);
    var count := CountUnfinished(active);
    if count > cfg.MaxTasks() { ok := false; return; }
    p := PlanWith(f, cfg, freshId, next, merged);
    ok := Validate(p, 0);
    if !ok { return; }
    if latest == "" { ok := false; return; }
    if f.plan.id != "" {
      CompletionKeepsFields(merged, latest);
      var tasks := Complete(merged, latest);
      p := p.(tasks := tasks);
      ok := Validate(p, 0);
    }
  }

  method Complete(merged: seq<Task>, latest: Id) returns (tasks: seq<Task>)
    requires UniqueIds(merged)
    ensures tasks == Completed(merged, latest)
  {
    var slice := new Task[|merged|](i requires 0 <= i < |merged| => merged[i]);
    assert slice[..] == merged;
    CompleteSynthesisDependencies(slice, latest);
    tasks := slice[..];
  }

  /** `installPlan`: succeeds exactly on acceptable proposals, and then computes the
      installed plan; on failure nothing changes. */
  method Install(f: Facts, cfg: Config, freshId: string, next: Proposal) returns (ok: bool, after: Facts)
    ensures ok <==> Acceptable(f, cfg, freshId, next)
    ensures after == if ok then Installed(f, cfg, freshId, next) else f
    ensures after == f.(plan := after.plan, retryUsed := after.retryUsed)
  {
    after := f;
    if f.plan.id != "" && Blank(next.reason) { return false, f; }
    var fine, p, active, latest, newResearch := Normalize(f, cfg, freshId, next);
    if !fine { return false, f; }
    fine := CheckCoverage(p.tasks, latest);
    if !fine { return false, f; }
    var retryUsed := f.retryUsed;
    if newResearch {
      fine, retryUsed := CheckRetry(f);
      if !fine { return false, f; }
    }
    if p.strategy.Direct? && (|active| != 1 || !active[0].agent.SynthesisReview?) { return false, f; }
    var ready := ReadyTasks(p.tasks);
    if |ready| == 0 { return false, f; }
    after := f.(plan := p, retryUsed := retryUsed);
    ok := true;
  }

  lemma CompletionKeepsFields(ts: seq<Task>, synthesis: Id)
    requires UniqueIds(ts) && forall t :: t in ts ==> TaskFieldsValid(t)
    ensures forall t :: t in Completed(ts, synthesis) ==> TaskFieldsValid(t)
    ensures UniqueIds(Completed(ts, synthesis))
  {
    CompletionIsLocal(ts, synthesis);
    var out := Completed(ts, synthesis);
    forall t | t in out ensures TaskFieldsValid(t) {
      var k :| 0 <= k < |out| && out[k] == t;
      assert ts[k] in ts;
    }
  }

  lemma {:induction false} RetainedMembers(kept: set<Id>, history: seq<Task>, t: Task)
    ensures t in Retained(kept, history) <==> exists u :: u in history && u.id !in kept && t == Cancel(u)
  {
    if history != [] {
      var init := history[..|history|-1];
      RetainedMembers(kept, init, t);
      assert forall u :: u in history <==> u in init || u == history[|history|-1];
    }
  }

  lemma CompletedMember(ts: seq<Task>, synthesis: Id, t: Task)
    requires UniqueIds(ts)
    ensures t in ts && !t.status.Pending? ==> t in Completed(ts, synthesis)
    ensures t in Completed(ts, synthesis) ==> exists u :: u in ts && u == t.(deps := u.deps)
    ensures t in ts ==> exists u :: u in Completed(ts, synthesis) && u == t.(deps := u.deps)
  {
    CompletionIsLocal(ts, synthesis);
    var out := Completed(ts, synthesis);
    if t in ts {
      var k :| 0 <= k < |ts| && ts[k] == t;
      assert out[k] in out && out[k] == t.(deps := out[k].deps);
      assert !PendingAt(ts, synthesis, k) ==> out[k] == t;
    }
    if t in out {
      var k :| 0 <= k < |out| && out[k] == t;
      assert ts[k] in ts && ts[k] == t.(deps := ts[k].deps);
    }
  }

  lemma MergedStatus(f: Facts, p: Proposal, u: Task)
    requires u in Merged(f, p)
    ensures u.status.Pending? || u.status.Succeeded? || Dead(u.status)
  {
    if u in Adopted(f, p) {
      var i :| 0 <= i < |p.tasks| && Adopted(f, p)[i] == u;
    } else {
      RetainedMembers(Ids(p.tasks), f.plan.tasks, u);
    }
  }

  /** No task of the installed plan is in flight. */
  lemma MergedSettled(f: Facts, p: Proposal)
    requires UniqueIds(Merged(f, p))
    ensures Settled(FinalTasks(f, p))
    ensures forall t :: t in FinalTasks(f, p) && Waits(t) ==> t.status.Pending?
  {
    forall t | t in FinalTasks(f, p)
      ensures t.status.Pending? || t.status.Succeeded? || Dead(t.status)
    {
      if !First(f) { CompletedMember(Merged(f, p), Latest(f, p), t); }
      var u :| u in Merged(f, p) && u.status == t.status;
      MergedStatus(f, p, u);
    }
  }

  /** Deadlock freedom of an installation: once its earlier checks pass, no task is ready
      only if none is pending. */
  lemma NothingReadyMeansNothingPending(f: Facts, cfg: Config, freshId: string, p: Proposal)
    requires Normalizable(f, cfg, freshId, p) && LiveDependencies(FinalTasks(f, p))
    ensures Ready(FinalTasks(f, p)) == [] <==> forall t :: t in FinalTasks(f, p) ==> !t.status.Pending?
  {
    MergedSettled(f, p);
    ReadyUnlessNothingWaits(FinalTasks(f, p));
  }

  /** Tasks that ended survive an installation unchanged, and no id is lost. */
  lemma HistorySurvives(f: Facts, p: Proposal, t: Task)
    requires UniqueIds(f.plan.tasks) && UniqueIds(Merged(f, p)) && t in f.plan.tasks
    ensures Ended(t.status) ==> t in FinalTasks(f, p)
    ensures t.id in Ids(FinalTasks(f, p))
  {
    var u;
    if t.id in Ids(p.tasks) {
      var q :| q in p.tasks && q.id == t.id;
      var i :| 0 <= i < |p.tasks| && p.tasks[i] == q;
      LookupMember(f.plan.tasks, t.id);
      u := Adopted(f, p)[i];
      assert u in Adopted(f, p);
    } else {
      u := Cancel(t);
      RetainedMembers(Ids(p.tasks), f.plan.tasks, u);
    }
    assert u in Merged(f, p) && u.id == t.id && (Ended(t.status) ==> u == t);
    if !First(f) { CompletedMember(Merged(f, p), Latest(f, p), u); }
  }

  lemma NewMember(f: Facts, p: Proposal, u: Task)
    requires u in Merged(f, p) && u.id !in Ids(f.plan.tasks)
    ensures u.status.Pending? && exists q :: q in p.tasks && q.id == u.id && q.agent == u.agent
  {
    if u in Adopted(f, p) {
      var i :| 0 <= i < |p.tasks| && Adopted(f, p)[i] == u;
      LookupMember(f.plan.tasks, p.tasks[i].id);
      assert p.tasks[i] in p.tasks;
    } else {
      RetainedMembers(Ids(p.tasks), f.plan.tasks, u);
    }
  }

  /** Whatever is new in the installed plan was proposed, and it is still to be run. */
  lemma NewTasksArePending(f: Facts, p: Proposal, t: Task)
    requires UniqueIds(Merged(f, p))
    requires t in FinalTasks(f, p) && t.id !in Ids(f.plan.tasks)
    ensures t.status.Pending? && exists q :: q in p.tasks && q.id == t.id && q.agent == t.agent
  {
    if !First(f) { CompletedMember(Merged(f, p), Latest(f, p), t); }
    var u :| u in Merged(f, p) && u.id == t.id && u.status == t.status && u.agent == t.agent;
    NewMember(f, p, u);
  }
}
