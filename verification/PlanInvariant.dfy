/** The run invariant of the plan machine, and that every event keeps it. */
module PlanInvariant {
  import opened Digraph
  import opened ExecutionPlan
  import opened SynthesisCoverage
  import opened PlanInstall
  import opened PlanMachine

  function Tasks(s: State): seq<Task> { s.facts.plan.tasks }
  function S(s: State, id: Id): Status { StatusOf(s.facts.plan.tasks, id) }
  ghost function G(s: State): Graph { GraphOf(s.facts.plan.tasks) }

  predicate Underway(st: Status) { st.Running? || st.Waiting? }

  /** A task that runs, waits for the user or succeeded has only successful dependencies. */
  ghost predicate Backed(s: State) {
    forall e :: e in G(s) && (Underway(S(s, e.0)) || S(s, e.0).Succeeded?) ==> S(s, e.1).Succeeded?
  }

  ghost predicate StatusesKnown(s: State) {
    forall id :: id in Ids(Tasks(s)) ==> !S(s, id).Unset? && !S(s, id).UnknownStatus?
  }

  /** Results and plan agree on what ended. */
  ghost predicate ResultsMatch(s: State) {
    && (forall id :: id in s.facts.results ==>
          && id in Ids(Tasks(s))
          && s.facts.results[id].status in {Status.Succeeded, Failed, Waiting}
          && (s.facts.results[id].status.Waiting? || S(s, id) == s.facts.results[id].status))
    && (forall id :: S(s, id).Succeeded? || S(s, id).Failed? ==>
          id in s.facts.results && s.facts.results[id].status == S(s, id))
  }

  predicate AtWork(s: State) { s.stage == AtExecutor || s.stage == Interrupted }

  ghost predicate NothingUnderway(s: State) {
    forall id :: !Underway(S(s, id))
  }

  ghost predicate FlightOk(s: State) {
    && (forall id :: id in s.inFlight ==> S(s, id).Running?)
    && (forall id :: id in s.parked ==> S(s, id).Waiting?)
  }

  /** The frozen batch still describes the plan, and only its tasks can be underway. */
  ghost predicate BatchOk(s: State) {
    && UniqueIds(s.batch)
    && (forall b :: b in s.batch ==> b.id in Ids(Tasks(s)) && forall d :: d in b.deps <==> (b.id, d) in G(s))
    && (forall id :: Underway(S(s, id)) ==> id in BatchIds(s))
    && (forall id :: id in BatchIds(s) ==> !S(s, id).Canceled?)
  }

  /** A live task can only depend on a dead one that died in the current batch. */
  ghost predicate DeadOnlyIn(s: State, ids: set<Id>) {
    forall e :: e in G(s) && !Dead(S(s, e.0)) && Dead(S(s, e.1)) ==> e.1 in ids
  }

  ghost predicate StageOk(s: State) {
    && (s.stage == AtPlanner ==> Tasks(s) == [] && s.facts.plan.id == "")
    && (s.stage == PlanReady ==> DeadOnlyIn(s, {}) && Ready(Tasks(s)) != [])
    && (AtWork(s) ==> BatchOk(s) && DeadOnlyIn(s, BatchIds(s)))
    && (!AtWork(s) ==> NothingUnderway(s) && s.inFlight == {})
    && s.stage != Stopping
    && (s.stage == Finished ==> CompletionAccepted(s))
  }

  ghost predicate CompletionAccepted(s: State) {
    exists response :: CompletionValid(s.facts, response) && s.final == Trim(response)
  }

  ghost predicate Inv(s: State) {
    && WellFormedGraph(Tasks(s)) && StatusesKnown(s) && Backed(s) && ResultsMatch(s)
    && FlightOk(s) && StageOk(s)
  }

  // ----- what the task-slice updates preserve -----

  ghost predicate Skeleton(a: seq<Task>, b: seq<Task>) {
    |a| == |b| && forall i :: 0 <= i < |a| ==> a[i].id == b[i].id && a[i].agent == b[i].agent && a[i].deps == b[i].deps
  }

  lemma SkeletonKeepsGraph(a: seq<Task>, b: seq<Task>)
    requires Skeleton(a, b)
    ensures GraphOf(a) == GraphOf(b) && Ids(a) == Ids(b)
    ensures UniqueIds(a) <==> UniqueIds(b)
    ensures WellFormedGraph(a) <==> WellFormedGraph(b)
  {
    SkeletonHalf(a, b);
    SkeletonHalf(b, a);
  }

  lemma SkeletonHalf(a: seq<Task>, b: seq<Task>)
    requires Skeleton(a, b)
    ensures GraphOf(a) <= GraphOf(b) && Ids(a) <= Ids(b)
    ensures EdgesValid(b) && Ids(a) == Ids(b) ==> EdgesValid(a)
    ensures UniqueIds(b) ==> UniqueIds(a)
  {
    forall t | t in a ensures exists u :: u in b && u.id == t.id && u.deps == t.deps && u.agent == t.agent {
      var k :| 0 <= k < |a| && a[k] == t;
      assert b[k] in b;
    }
    forall e | e in GraphOf(a) ensures e in GraphOf(b) {
      var t :| t in a && t.id == e.0 && e.1 in t.deps;
    }
  }

  /** Status of every id after a status-only update at one id. */
  lemma {:induction false} StatusAfter(ts: seq<Task>, out: seq<Task>, id: Id, st: Status)
    requires |ts| == |out| && forall i :: 0 <= i < |ts| ==>
      ts[i].id == out[i].id && out[i].status == if ts[i].id == id then st else ts[i].status
    ensures forall x :: StatusOf(out, x) == if x == id && id in Ids(ts) then st else StatusOf(ts, x)
  {
    if ts != [] {
      var n := |ts| - 1;
      StatusAfter(ts[..n], out[..n], id, st);
      assert ts == ts[..n] + [ts[n]];
      assert Ids(ts) == Ids(ts[..n]) + {ts[n].id};
    }
  }

  lemma {:induction false} StatusAfterCancel(ts: seq<Task>, x: Id)
    ensures StatusOf(CancelAll(ts), x) ==
            var st := StatusOf(ts, x);
            if st.Pending? || st.Running? || st.Waiting? then Canceled else st
  {
    if ts != [] {
      var n := |ts| - 1;
      assert CancelAll(ts)[..n] == CancelAll(ts[..n]);
      StatusAfterCancel(ts[..n], x);
    }
  }

  /** Member-wise and id-wise readings of the plan agree. */
  lemma LiveById(ts: seq<Task>)
    requires UniqueIds(ts)
    ensures LiveDependencies(ts) <==>
            forall e :: e in GraphOf(ts) && !Dead(StatusOf(ts, e.0)) ==> !Dead(StatusOf(ts, e.1))
    ensures Settled(ts) <==>
            forall id :: id in Ids(ts) ==>
              var st := StatusOf(ts, id); st.Unset? || st.Pending? || st.Succeeded? || Dead(st)
  {
    forall t | t in ts ensures StatusOf(ts, t.id) == t.status { StatusOfMember(ts, t); }
    if LiveDependencies(ts) {
      forall e | e in GraphOf(ts) && !Dead(StatusOf(ts, e.0)) ensures !Dead(StatusOf(ts, e.1)) {
        var t :| t in ts && t.id == e.0 && e.1 in t.deps;
      }
    }
    if forall e :: e in GraphOf(ts) && !Dead(StatusOf(ts, e.0)) ==> !Dead(StatusOf(ts, e.1)) {
      forall t, d | t in ts && !Dead(t.status) && d in t.deps ensures !Dead(StatusOf(ts, d)) {
        assert (t.id, d) in GraphOf(ts);
      }
    }
    forall t | t in ts ensures t.id in Ids(ts) {}
  }

  lemma {:induction false} TaskInFacts(ts: seq<Task>, id: Id)
    requires id in Ids(ts)
    ensures TaskIn(ts, id) in ts && TaskIn(ts, id).id == id
  {
    if ts[0].id != id {
      assert ts == [ts[0]] + ts[1..];
      TaskInFacts(ts[1..], id);
    }
  }

  // ----- one lemma per event -----

  lemma InitHolds(s: State)
    requires Init(s)
    ensures Inv(s)
  {
    var g := GraphOf(Tasks(s));
    assert g == {};
    forall v ensures !Reaches(g, v, v) {
      if Reaches(g, v, v) { var d := FirstStep(g, v, v); }
    }
    assert Acyclic(g);
    assert forall id :: S(s, id).Unset?;
  }

  /** What an accepted installation says about the states around it. */
  ghost predicate InstallStep(s: State, s': State, p: Proposal) {
    var ts := Tasks(s');
    && s.stage in {AtPlanner, AtReplanner} && s'.stage == PlanReady
    && s'.inFlight == s.inFlight && s'.parked == s.parked
    && s'.facts.results == s.facts.results
    && ts == FinalTasks(s.facts, p) && UniqueIds(Merged(s.facts, p))
    && WellFormedGraph(ts) && LiveDependencies(ts) && Ready(ts) != []
  }

  lemma InstallKeeps(s: State, e: Event)
    requires Inv(s) && e.InstallPlan? && Enabled(s, e)
    ensures Inv(After(s, e)) && InstallStep(s, After(s, e), e.proposal)
  {
    InstallStepKeeps(s, After(s, e), e.proposal);
  }

  lemma InstallStepKeeps(s: State, s': State, p: Proposal)
    requires Inv(s) && InstallStep(s, s', p)
    ensures Inv(s')
  {
    InstallStatuses(s, s', p);
    InstallBacked(s, s', p);
    InstallResults(s, s', p);
    assert Backed(s');
  }

  lemma LiveMeansNoneDead(s: State)
    requires UniqueIds(Tasks(s)) && LiveDependencies(Tasks(s))
    ensures DeadOnlyIn(s, {})
  {
    LiveById(Tasks(s));
  }

  lemma InstallStatuses(s: State, s': State, p: Proposal)
    requires Inv(s) && InstallStep(s, s', p)
    ensures StatusesKnown(s') && NothingUnderway(s') && DeadOnlyIn(s', {}) && s'.inFlight == {} && s'.parked == {}
  {
    InstalledSettled(s, s', p);
    LiveMeansNoneDead(s');
    NothingParked(s);
  }

  lemma InstalledSettled(s: State, s': State, p: Proposal)
    requires StatusesKnown(s) && InstallStep(s, s', p)
    ensures StatusesKnown(s') && NothingUnderway(s')
  {
    MergedSettled(s.facts, p);
    SettledStatuses(s');
  }

  lemma NothingParked(s: State)
    requires Inv(s) && !AtWork(s)
    ensures s.inFlight == {} && s.parked == {}
  {
    assert forall id :: id in s.parked ==> Underway(S(s, id));
  }

  lemma SettledStatuses(s: State)
    requires UniqueIds(Tasks(s))
    requires forall t :: t in Tasks(s) ==> !t.status.Unset? && !t.status.UnknownStatus? && !Underway(t.status)
    ensures StatusesKnown(s) && NothingUnderway(s)
  {
    var ts := Tasks(s);
    forall id | id in Ids(ts) ensures !S(s, id).Unset? && !S(s, id).UnknownStatus? && !Underway(S(s, id)) {
      var t :| t in ts && t.id == id;
      StatusOfMember(ts, t);
    }
    forall id ensures !Underway(S(s, id)) {
      if id !in Ids(ts) { StatusOfAbsent(ts, id); }
    }
  }

  lemma InstallBacked(s: State, s': State, p: Proposal)
    requires Inv(s) && InstallStep(s, s', p)
    ensures forall edge :: edge in G(s') && S(s', edge.0).Succeeded? ==> S(s', edge.1).Succeeded?
  {
    var ts := Tasks(s');
    forall edge | edge in G(s') && S(s', edge.0).Succeeded? ensures S(s', edge.1).Succeeded? {
      var t :| t in ts && t.id == edge.0 && edge.1 in t.deps;
      StatusOfMember(ts, t);
      EndedWasThere(s.facts, p, t);
      StatusOfMember(Tasks(s), t);
      assert edge in G(s);
      EndedStays(s, s', p, edge.1);
    }
  }

  lemma InstallResults(s: State, s': State, p: Proposal)
    requires Inv(s) && InstallStep(s, s', p)
    ensures ResultsMatch(s')
  {
    var ts := Tasks(s');
    forall id | S(s', id).Succeeded? || S(s', id).Failed?
      ensures id in s'.facts.results && s'.facts.results[id].status == S(s', id)
    {
      if id !in Ids(ts) { StatusOfAbsent(ts, id); }
      var t :| t in ts && t.id == id;
      StatusOfMember(ts, t);
      EndedWasThere(s.facts, p, t);
      StatusOfMember(Tasks(s), t);
    }
    forall id | id in s'.facts.results
      ensures id in Ids(ts)
      ensures s'.facts.results[id].status.Waiting? || S(s', id) == s'.facts.results[id].status
    {
      var t :| t in Tasks(s) && t.id == id;
      HistorySurvives(s.facts, p, t);
      if Ended(S(s, id)) { EndedStays(s, s', p, id); }
    }
  }

  lemma EndedStays(s: State, s': State, p: Proposal, id: Id)
    requires UniqueIds(Tasks(s)) && InstallStep(s, s', p) && Ended(S(s, id))
    ensures S(s', id) == S(s, id)
  {
    if id !in Ids(Tasks(s)) { StatusOfAbsent(Tasks(s), id); }
    var t :| t in Tasks(s) && t.id == id;
    StatusOfMember(Tasks(s), t);
    HistorySurvives(s.facts, p, t);
    StatusOfMember(Tasks(s'), t);
  }

  /** What has succeeded or failed in the installed plan had already ended before. */
  lemma EndedWasThere(f: Facts, p: Proposal, t: Task)
    requires UniqueIds(f.plan.tasks) && UniqueIds(Merged(f, p)) && t in FinalTasks(f, p)
    requires t.status.Succeeded? || t.status.Failed?
    ensures t in f.plan.tasks
  {
    CompletionIsLocal(Merged(f, p), Latest(f, p));
    if !First(f) {
      var k :| 0 <= k < |FinalTasks(f, p)| && FinalTasks(f, p)[k] == t;
      assert !PendingAt(Merged(f, p), Latest(f, p), k);
      assert Merged(f, p)[k] == t;
    }
    assert t in Merged(f, p);
    if t in Adopted(f, p) {
      var i :| 0 <= i < |p.tasks| && Adopted(f, p)[i] == t;
      LookupMember(f.plan.tasks, p.tasks[i].id);
    } else {
      RetainedMembers(Ids(p.tasks), f.plan.tasks, t);
    }
  }

  lemma {:induction false} ReadyAmongUnique(ts: seq<Task>, some: seq<Task>)
    requires UniqueIds(some)
    ensures UniqueIds(ReadyAmong(ts, some))
    ensures forall t :: t in ReadyAmong(ts, some) ==> t in some
  {
    if some != [] {
      var init, last := some[..|some|-1], some[|some|-1];
      ReadyAmongUnique(ts, init);
      forall t | t in ReadyAmong(ts, init) ensures t.id != last.id {
        var k :| 0 <= k < |init| && init[k] == t;
        assert some[k].id != some[|some|-1].id;
      }
    }
  }

  lemma UniqueTask(ts: seq<Task>, t: Task, u: Task)
    requires UniqueIds(ts) && t in ts && u in ts && t.id == u.id
    ensures t == u
  {
    var i :| 0 <= i < |ts| && ts[i] == t;
    var j :| 0 <= j < |ts| && ts[j] == u;
  }

  lemma BatchMember(s: State, s': State, b: Task)
    requires Inv(s) && Tasks(s') == Tasks(s) && b in Ready(Tasks(s))
    ensures b.id in Ids(Tasks(s')) && (forall d :: d in b.deps <==> (b.id, d) in G(s')) && !S(s', b.id).Canceled?
  {
    var ts := Tasks(s);
    ReadyAmongMembers(ts, ts, b);
    StatusOfMember(ts, b);
    forall d | (b.id, d) in G(s) ensures d in b.deps {
      var t :| t in ts && t.id == b.id && d in t.deps;
      UniqueTask(ts, b, t);
    }
  }

  lemma BatchOpens(s: State, s': State)
    requires Inv(s) && s.stage == PlanReady && s'.stage == AtExecutor && s'.batch == NextBatch(s.facts.plan)
    requires Tasks(s') == Tasks(s) && s'.facts.results == s.facts.results
    requires s'.inFlight == s.inFlight && s'.parked == s.parked
    ensures Inv(s')
  {
    ReadyAmongUnique(Tasks(s), Tasks(s));
    forall b | b in s'.batch
      ensures b.id in Ids(Tasks(s')) && (forall d :: d in b.deps <==> (b.id, d) in G(s')) && !S(s', b.id).Canceled?
    {
      BatchMember(s, s', b);
    }
    assert forall id :: S(s', id) == S(s, id);
    assert BatchOk(s');
  }

  lemma BatchKeeps(s: State)
    requires Inv(s) && s.stage == PlanReady
    ensures Inv(After(s, StartBatch)) && After(s, StartBatch).batch != []
  {
    assert After(s, StartBatch) == Open(s);
    BatchOpens(s, Open(s));
  }

  /** One task's status moves; everything else about the plan stays. */
  ghost predicate Moves(s: State, s': State, id: Id, st: Status) {
    && Skeleton(Tasks(s), Tasks(s')) && G(s') == G(s) && Ids(Tasks(s')) == Ids(Tasks(s))
    && (forall x :: S(s', x) == if x == id then st else S(s, x))
    && s.stage == AtExecutor && s'.stage == AtExecutor && s'.batch == s.batch
    && id in BatchIds(s) && !Ended(S(s, id)) && st in {Running, Waiting, Status.Succeeded, Failed}
    && (forall d :: (id, d) in G(s) ==> S(s, d).Succeeded?)
  }

  lemma MoveBacked(s: State, s': State, id: Id, st: Status)
    requires Backed(s) && Moves(s, s', id, st)
    ensures Backed(s')
  {
    forall e | e in G(s') && (Underway(S(s', e.0)) || S(s', e.0).Succeeded?) ensures S(s', e.1).Succeeded? {
      assert e in G(s);
      if e.0 == id { assert (id, e.1) in G(s); } else { assert S(s, e.1).Succeeded?; }
    }
  }

  lemma MoveDead(s: State, s': State, id: Id, st: Status)
    requires DeadOnlyIn(s, BatchIds(s)) && Moves(s, s', id, st)
    ensures DeadOnlyIn(s', BatchIds(s'))
  {
    forall e | e in G(s') && !Dead(S(s', e.0)) && Dead(S(s', e.1)) ensures e.1 in BatchIds(s') {
      assert e in G(s);
    }
  }

  lemma MoveBatch(s: State, s': State, id: Id, st: Status)
    requires BatchOk(s) && StatusesKnown(s) && Moves(s, s', id, st)
    ensures BatchOk(s') && StatusesKnown(s')
  {
    forall b | b in s'.batch ensures b.id in Ids(Tasks(s')) && forall d :: d in b.deps <==> (b.id, d) in G(s') {}
  }

  lemma MoveKeeps(s: State, s': State, id: Id, st: Status)
    requires Inv(s) && Moves(s, s', id, st)
    requires ResultsMatch(s') && FlightOk(s')
    ensures Inv(s')
  {
    SkeletonKeepsGraph(Tasks(s), Tasks(s'));
    MoveBacked(s, s', id, st);
    MoveDead(s, s', id, st);
    MoveBatch(s, s', id, st);
  }

  lemma StatusUpdate(ts: seq<Task>, out: seq<Task>, id: Id, st: Status)
    requires Skeleton(ts, out) && id in Ids(ts)
    requires forall i :: 0 <= i < |ts| ==> out[i].status == if ts[i].id == id then st else ts[i].status
    ensures GraphOf(out) == GraphOf(ts) && Ids(out) == Ids(ts)
    ensures forall x :: StatusOf(out, x) == if x == id then st else StatusOf(ts, x)
  {
    StatusAfter(ts, out, id, st);
    SkeletonKeepsGraph(ts, out);
  }

  lemma WithStatusUpdate(ts: seq<Task>, id: Id, st: Status)
    requires id in Ids(ts)
    ensures var out := WithStatus(ts, id, st);
      && Skeleton(ts, out) && GraphOf(out) == GraphOf(ts) && Ids(out) == Ids(ts)
      && forall x :: StatusOf(out, x) == if x == id then st else StatusOf(ts, x)
  {
    StatusUpdate(ts, WithStatus(ts, id, st), id, st);
  }

  lemma WithResultUpdate(ts: seq<Task>, r: TaskResult)
    requires r.taskId in Ids(ts)
    ensures var out := WithResult(ts, r);
      && Skeleton(ts, out) && GraphOf(out) == GraphOf(ts) && Ids(out) == Ids(ts)
      && forall x :: StatusOf(out, x) == if x == r.taskId then r.status else StatusOf(ts, x)
  {
    StatusUpdate(ts, WithResult(ts, r), r.taskId, r.status);
  }

  lemma StartDeps(s: State, id: Id)
    requires BatchOk(s) && ResultsMatch(s) && id in BatchIds(s)
    requires forall d :: d in TaskIn(s.batch, id).deps ==> PlanMachine.Succeeded(s.facts.results, d)
    ensures id in Ids(Tasks(s)) && forall d :: (id, d) in G(s) ==> S(s, d).Succeeded?
  {
    TaskInFacts(s.batch, id);
    var b := TaskIn(s.batch, id);
    forall d | (id, d) in G(s) ensures S(s, d).Succeeded? {
      assert (b.id, d) in G(s);
      assert d in b.deps;
    }
  }

  lemma StartMoves(s: State, e: Event)
    requires Inv(s) && e.StartTask? && Enabled(s, e)
    ensures Moves(s, After(s, e), e.id, Running)
  {
    var s', id := After(s, e), e.id;
    StartDeps(s, id);
    StartableStatus(s, id);
    WithStatusUpdate(Tasks(s), id, Running);
  }

  lemma StartKeeps(s: State, e: Event)
    requires Inv(s) && e.StartTask? && Enabled(s, e)
    ensures Inv(After(s, e))
  {
    StartMoves(s, e);
    StartableStatus(s, e.id);
    StartMatches(s, After(s, e), e.id);
    MoveKeeps(s, After(s, e), e.id, Running);
  }

  lemma StartMatches(s: State, s': State, id: Id)
    requires ResultsMatch(s) && FlightOk(s) && Moves(s, s', id, Running)
    requires id in s.facts.results ==> s.facts.results[id].status.Waiting?
    requires s'.facts.results == s.facts.results
    requires s'.inFlight == s.inFlight + {id} && s'.parked == s.parked - {id}
    ensures ResultsMatch(s') && FlightOk(s')
  {}

  /** A batch task without a settled result has not ended. */
  lemma StartableStatus(s: State, id: Id)
    requires Inv(s) && AtWork(s) && id in BatchIds(s)
    requires id in s.facts.results ==> s.facts.results[id].status.Waiting?
    ensures !Ended(S(s, id))
  {}

  lemma InFlightDeps(s: State, id: Id)
    requires Inv(s) && id in s.inFlight
    ensures S(s, id).Running? && id in Ids(Tasks(s)) && forall d :: (id, d) in G(s) ==> S(s, d).Succeeded?
  {
    if id !in Ids(Tasks(s)) { StatusOfAbsent(Tasks(s), id); }
  }

  lemma FinishMoves(s: State, s': State, r: TaskResult)
    requires Inv(s) && s.stage == AtExecutor && r.taskId in s.inFlight && r.taskId in BatchIds(s)
    requires r.status in {Status.Succeeded, Failed, Waiting}
    requires s'.stage == s.stage && s'.batch == s.batch && Tasks(s') == WithResult(Tasks(s), r)
    ensures Moves(s, s', r.taskId, r.status)
  {
    InFlightDeps(s, r.taskId);
    ResultMoves(s, s', r);
  }

  lemma ResultMoves(s: State, s': State, r: TaskResult)
    requires s.stage == AtExecutor && r.taskId in BatchIds(s) && r.taskId in Ids(Tasks(s))
    requires !Ended(S(s, r.taskId)) && forall d :: (r.taskId, d) in G(s) ==> S(s, d).Succeeded?
    requires r.status in {Status.Succeeded, Failed, Waiting}
    requires s'.stage == s.stage && s'.batch == s.batch && Tasks(s') == WithResult(Tasks(s), r)
    ensures Moves(s, s', r.taskId, r.status)
  {
    WithResultUpdate(Tasks(s), r);
  }

  lemma FinishKeeps(s: State, e: Event)
    requires Inv(s) && e.FinishTask? && Enabled(s, e)
    ensures Inv(After(s, e))
  {
    var t := TaskIn(s.batch, e.id);
    TaskInFacts(s.batch, e.id);
    ResultStatuses(s, t, e.outcome);
    FinishResultKeeps(s, After(s, e), ResultOf(s, t, e.outcome));
  }

  lemma FinishResultKeeps(s: State, s': State, r: TaskResult)
    requires Inv(s) && s.stage == AtExecutor && r.taskId in s.inFlight && r.taskId in BatchIds(s)
    requires r.status in {Status.Succeeded, Failed, Waiting}
    requires s' == s.(facts := s'.facts, inFlight := s.inFlight - {r.taskId},
                      parked := if r.status.Waiting? then s.parked + {r.taskId} else s.parked, broken := s'.broken)
    requires Tasks(s') == WithResult(Tasks(s), r) && s'.facts.results == s.facts.results[r.taskId := r]
    ensures Inv(s')
  {
    FinishMoves(s, s', r);
    InFlightDeps(s, r.taskId);
    FinishMatches(s, s', r);
    MoveKeeps(s, s', r.taskId, r.status);
  }

  lemma FinishForth(s: State, s': State, r: TaskResult, id: Id)
    requires ResultsMatch(s) && Moves(s, s', r.taskId, r.status) && id in s'.facts.results
    requires s'.facts.results == s.facts.results[r.taskId := r]
    requires r.taskId in Ids(Tasks(s)) && r.status in {Status.Succeeded, Failed, Waiting}
    ensures id in Ids(Tasks(s')) && s'.facts.results[id].status in {Status.Succeeded, Failed, Waiting}
    ensures s'.facts.results[id].status.Waiting? || S(s', id) == s'.facts.results[id].status
  {}

  lemma FinishBack(s: State, s': State, r: TaskResult, id: Id)
    requires ResultsMatch(s) && Moves(s, s', r.taskId, r.status) && (S(s', id).Succeeded? || S(s', id).Failed?)
    requires s'.facts.results == s.facts.results[r.taskId := r]
    ensures id in s'.facts.results && s'.facts.results[id].status == S(s', id)
  {}

  lemma FinishResults(s: State, s': State, r: TaskResult)
    requires ResultsMatch(s) && Moves(s, s', r.taskId, r.status)
    requires s'.facts.results == s.facts.results[r.taskId := r]
    requires r.taskId in Ids(Tasks(s)) && r.status in {Status.Succeeded, Failed, Waiting}
    ensures ResultsMatch(s')
  {
    forall id | id in s'.facts.results
      ensures id in Ids(Tasks(s')) && s'.facts.results[id].status in {Status.Succeeded, Failed, Waiting}
      ensures s'.facts.results[id].status.Waiting? || S(s', id) == s'.facts.results[id].status
    {
      FinishForth(s, s', r, id);
    }
    forall id | S(s', id).Succeeded? || S(s', id).Failed?
      ensures id in s'.facts.results && s'.facts.results[id].status == S(s', id)
    {
      FinishBack(s, s', r, id);
    }
  }

  lemma FinishMatches(s: State, s': State, r: TaskResult)
    requires ResultsMatch(s) && FlightOk(s) && S(s, r.taskId).Running? && Moves(s, s', r.taskId, r.status)
    requires s'.facts.results == s.facts.results[r.taskId := r]
    requires s'.inFlight == s.inFlight - {r.taskId}
    requires s'.parked == if r.status.Waiting? then s.parked + {r.taskId} else s.parked
    requires r.taskId in Ids(Tasks(s)) && r.status in {Status.Succeeded, Failed, Waiting}
    ensures ResultsMatch(s') && FlightOk(s')
  {
    FinishResults(s, s', r);
    forall id | id in s'.parked ensures S(s', id).Waiting? {
      assert id != r.taskId ==> id in s.parked;
    }
  }

  lemma ResultStatuses(s: State, t: Task, o: Outcome)
    ensures ResultOf(s, t, o).taskId == t.id
    ensures ResultOf(s, t, o).status in {Status.Succeeded, Failed, Waiting}
    ensures ResultOf(s, t, o).status.Waiting? <==> o.interrupted && o.error == ""
  {}

  lemma FailKeeps(s: State)
    requires Inv(s) && Enabled(s, Fail)
    ensures Inv(After(s, Fail))
  {
    CloseKeeps(s, After(s, Fail));
  }

  /** All unfinished tasks are canceled at once. */
  lemma CloseKeeps(s: State, s': State)
    requires Inv(s) && Tasks(s') == CancelAll(Tasks(s)) && s'.facts.results == s.facts.results
    requires s'.inFlight == {} && s'.parked == {} && s'.stage == Aborted
    ensures Inv(s')
  {
    SkeletonKeepsGraph(Tasks(s), Tasks(s'));
    forall id ensures S(s', id) == if S(s, id).Pending? || Underway(S(s, id)) then Canceled else S(s, id) {
      StatusAfterCancel(Tasks(s), id);
    }
    CloseMatches(s, s');
    assert Backed(s');
  }

  lemma CloseMatches(s: State, s': State)
    requires ResultsMatch(s) && StatusesKnown(s) && Ids(Tasks(s')) == Ids(Tasks(s))
    requires s'.facts.results == s.facts.results
    requires forall id :: S(s', id) == if S(s, id).Pending? || Underway(S(s, id)) then Canceled else S(s, id)
    ensures ResultsMatch(s') && StatusesKnown(s') && NothingUnderway(s')
  {}

  /** Nothing runs, and nothing but the stage changes. */
  lemma RestKeeps(s: State, s': State)
    requires Inv(s) && Tasks(s') == Tasks(s) && s'.facts.results == s.facts.results
    requires NothingUnderway(s) && s'.inFlight == {} && s'.parked == s.parked
    requires s'.stage == AtReplanner || (s'.stage == Finished && CompletionAccepted(s'))
    ensures Inv(s')
  {
    assert forall id :: S(s', id) == S(s, id);
    assert G(s') == G(s);
  }

  lemma SettledRests(s: State)
    requires Inv(s) && AtWork(s) && forall t :: t in s.batch ==> Settles(s.facts.results, t.id)
    ensures NothingUnderway(s)
  {
    forall id ensures !Underway(S(s, id)) {
      if id in BatchIds(s) { var b :| b in s.batch && b.id == id; }
    }
  }

  lemma FinishBatchKeeps(s: State)
    requires Inv(s) && Enabled(s, FinishBatch)
    ensures Inv(After(s, FinishBatch))
  {
    SettledRests(s);
    RestKeeps(s, Enter(s, Replanning, s.facts.plan.status, AtReplanner));
  }

  /** The plan's tasks, the results and the batch stand still. */
  ghost predicate Still(s: State, s': State) {
    && Tasks(s') == Tasks(s) && s'.facts.results == s.facts.results && s'.batch == s.batch
    && s'.inFlight <= s.inFlight && s'.parked == s.parked && AtWork(s) && AtWork(s')
  }

  lemma StillKeeps(s: State, s': State)
    requires Inv(s) && Still(s, s')
    ensures Inv(s')
  {
    assert forall id :: S(s', id) == S(s, id);
    assert G(s') == G(s);
    assert BatchOk(s');
  }

  lemma GuardIsStill(s: State, id: Id, dangerous: bool, rejected: bool)
    requires s.stage == AtExecutor
    ensures Still(s, Guard(s, id, dangerous, rejected))
  {}

  lemma ToolIsStill(s: State, id: Id, t: ToolOutcome)
    requires s.stage == AtExecutor
    ensures Still(s, AfterTool(s, id, t))
  {}

  lemma QuietKeeps(s: State, e: Event)
    requires Inv(s) && Enabled(s, e)
    requires e.GuardTool? || e.RecordTool? || e.AbandonTask? || e.Interrupt? || e.Resume?
    ensures Inv(After(s, e))
  {
    if e.GuardTool? {
      GuardIsStill(s, e.id, e.dangerous, e.rejected);
    } else if e.RecordTool? {
      ToolIsStill(s, e.id, e.tool);
    }
    StillKeeps(s, After(s, e));
  }

  lemma AnswerKeeps(s: State, s': State, response: string)
    requires Inv(s) && s.stage == AtReplanner && CompletionValid(s.facts, response)
    requires s' == s.(final := Trim(response), stage := Finished)
    ensures Inv(s')
  {
    assert CompletionAccepted(s') by { assert CompletionValid(s'.facts, response) && s'.final == Trim(response); }
    RestKeeps(s, s');
  }

  lemma CompleteKeeps(s: State, e: Event)
    requires Inv(s) && e.Complete? && Enabled(s, e)
    ensures Inv(After(s, e))
  {
    AnswerKeeps(s, After(s, e), e.response);
  }

  /** Every event keeps the invariant. */
  lemma StepKeeps(s: State, e: Event)
    requires Inv(s) && Enabled(s, e)
    ensures Inv(After(s, e))
  {
    match e
    case InstallPlan(_, _, _) => InstallKeeps(s, e);
    case StartBatch => BatchKeeps(s);
    case StartTask(_, _, _) => StartKeeps(s, e);
    case FinishTask(_, _) => FinishKeeps(s, e);
    case FinishBatch => FinishBatchKeeps(s);
    case Fail => FailKeeps(s);
    case Complete(_) => CompleteKeeps(s, e);
    case _ => QuietKeeps(s, e);
  }
}
