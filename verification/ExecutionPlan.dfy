/** Task plans: field and graph validation, ready tasks, and why a plan whose live
    tasks depend only on live tasks can never get stuck. */
module ExecutionPlan {
  import opened Digraph

  datatype Status = Unset | Pending | Running | Succeeded | Failed | Canceled | Waiting | UnknownStatus(text: string)
  datatype Agent = KnowledgeResearch | WebResearch | DocumentOperation | SynthesisReview | UnknownAgent(name: string)
  datatype Strategy = Direct | Sequential | Parallel | UnknownStrategy(text: string)
  datatype Phase = NoPhase | Planning | Executing | Replanning | WaitingForUser | FailedPhase

  datatype Task = Task(id: Id, addedVersion: int, agent: Agent, title: string, description: string,
                       deps: seq<Id>, status: Status, resultRef: string, summary: string)

  datatype Plan = Plan(id: string, version: int, phase: Phase, reason: string, round: int, goal: string,
                       strategy: Strategy, status: Status, tasks: seq<Task>)

  /** Unicode white space, as trimmed by the plan checks. */
  predicate IsSpace(c: char) {
    c in "\t\n\U{000B}\U{000C}\r \U{0085}\U{00A0}\U{1680}\U{2028}\U{2029}\U{202F}\U{205F}\U{3000}"
    || '\U{2000}' <= c <= '\U{200A}'
  }

  /** The white space of Unicode, by code point. */
  lemma SpacesAre(c: char)
    ensures IsSpace(c) <==>
              var n := c as int;
              (9 <= n <= 13) || n == 32 || n == 0x85 || n == 0xA0 || n == 0x1680 || (0x2000 <= n <= 0x200A)
              || n == 0x2028 || n == 0x2029 || n == 0x202F || n == 0x205F || n == 0x3000
  {}

  function Trim(s: string): (t: string)
    ensures |t| <= |s|
    ensures t != "" ==> !IsSpace(t[0]) && !IsSpace(t[|t|-1])
  {
    if s != "" && IsSpace(s[0]) then Trim(s[1..])
    else if s != "" && IsSpace(s[|s|-1]) then Trim(s[..|s|-1])
    else s
  }

  predicate Blank(s: string) { Trim(s) == "" }

  predicate AllSpace(s: string) { forall k :: 0 <= k < |s| ==> IsSpace(s[k]) }

  lemma SpaceJoin(a: string, b: string)
    requires AllSpace(a) && AllSpace(b)
    ensures AllSpace(a + b)
  {}

  /** Trimming cuts off all the white space around a text, and nothing else. */
  lemma {:induction false} TrimMeans(s: string) returns (left: string, right: string)
    ensures s == left + Trim(s) + right && AllSpace(left) && AllSpace(right)
    decreases |s|
  {
    left, right := "", "";
    if s != "" && IsSpace(s[0]) {
      left, right := TrimMeans(s[1..]);
      left := SpaceInFront(s, Trim(s[1..]), left, right);
    } else if s != "" && IsSpace(s[|s|-1]) {
      left, right := TrimMeans(s[..|s|-1]);
      right := SpaceBehind(s, Trim(s[..|s|-1]), left, right);
    }
  }

  lemma SpaceInFront(s: string, t: string, left: string, right: string) returns (more: string)
    requires s != "" && IsSpace(s[0]) && s[1..] == left + t + right && AllSpace(left)
    ensures s == more + t + right && AllSpace(more)
  {
    more := [s[0]] + left;
    SpaceJoin([s[0]], left);
    assert s == [s[0]] + s[1..];
  }

  lemma SpaceBehind(s: string, t: string, left: string, right: string) returns (more: string)
    requires s != "" && IsSpace(s[|s|-1]) && s[..|s|-1] == left + t + right && AllSpace(right)
    ensures s == left + t + more && AllSpace(more)
  {
    more := right + [s[|s|-1]];
    SpaceJoin(right, [s[|s|-1]]);
    assert s == s[..|s|-1] + [s[|s|-1]];
  }

  /** A text is blank if and only if it is all white space. */
  lemma BlankMeans(s: string)
    ensures Blank(s) <==> AllSpace(s)
  {
    var left, right := TrimMeans(s);
    if Blank(s) { SpaceJoin(left, right); } else { assert s[|left|] == Trim(s)[0]; }
  }

  ghost predicate UniqueIds(ts: seq<Task>) {
    forall i, j :: 0 <= i < j < |ts| ==> ts[i].id != ts[j].id
  }

  function Ids(ts: seq<Task>): set<Id> {
    set t | t in ts :: t.id
  }

  /** The dependency graph of a task list. */
  ghost function GraphOf(ts: seq<Task>): Graph {
    set t, d | t in ts && d in t.deps :: (t.id, d)
  }

  ghost predicate NoDuplicates(s: seq<Id>) {
    forall i, j :: 0 <= i < j < |s| ==> s[i] != s[j]
  }

  predicate SupportedStatus(s: Status) { !s.UnknownStatus? }

  ghost predicate TaskFieldsValid(t: Task) {
    !Blank(t.id) && !t.agent.UnknownAgent? && SupportedStatus(t.status)
  }

  ghost predicate FieldsValid(p: Plan, maxTasks: int) {
    && !Blank(p.id) && p.tasks != []
    && (maxTasks > 0 ==> |p.tasks| <= maxTasks)
    && !p.strategy.UnknownStrategy?
    && (forall t :: t in p.tasks ==> TaskFieldsValid(t))
    && UniqueIds(p.tasks)
  }

  ghost predicate TaskEdgesValid(t: Task, ids: set<Id>) {
    NoDuplicates(t.deps) && forall d :: d in t.deps ==> d in ids
  }

  /** Every task lists each dependency once and only tasks of the plan. */
  ghost predicate EdgesValid(ts: seq<Task>) {
    forall t :: t in ts ==> TaskEdgesValid(t, Ids(ts))
  }

  ghost predicate WellFormedGraph(ts: seq<Task>) {
    UniqueIds(ts) && EdgesValid(ts) && Acyclic(GraphOf(ts))
  }

  /** Adjacency table of a prefix of the tasks, as the validator builds it. */
  ghost predicate Tabulates(graph: map<Id, seq<Id>>, ts: seq<Task>) {
    && (forall t :: t in ts ==> if t.deps == [] then t.id !in graph else t.id in graph && graph[t.id] == t.deps)
    && (forall id :: id in graph ==> id in Ids(ts))
  }

  lemma TableEdges(graph: map<Id, seq<Id>>, ts: seq<Task>)
    requires Tabulates(graph, ts)
    ensures EdgesOf(graph) == GraphOf(ts)
  {
    forall e | e in EdgesOf(graph) ensures e in GraphOf(ts) {
      var t :| t in ts && t.id == e.0;
      assert e.1 in t.deps;
    }
  }

  /** `ExecutionPlan.Validate`: accepts exactly the plans with valid fields whose
      edges are unique, refer to existing tasks and form no cycle. */
  method Validate(p: Plan, maxTasks: int) returns (ok: bool)
    ensures ok <==> FieldsValid(p, maxTasks) && WellFormedGraph(p.tasks)
  {
    if Blank(p.id) || |p.tasks| == 0 { return false; }
    if maxTasks > 0 && |p.tasks| > maxTasks { return false; }
    if p.strategy.UnknownStrategy? { return false; }
    var seen;
    ok, seen := CheckTasks(p.tasks);
    if !ok { return; }
    var graph;
    ok, graph := BuildGraph(p.tasks, seen.Keys);
    if !ok { return; }
    ok := CheckCycles(p.tasks, graph, seen.Keys);
  }

  /** The fields of every task; a repeated id is refused. */
  method CheckTasks(ts: seq<Task>) returns (ok: bool, seen: map<Id, Task>)
    ensures ok <==> UniqueIds(ts) && forall t :: t in ts ==> TaskFieldsValid(t)
    ensures ok ==> seen.Keys == Ids(ts)
  {
    seen := map[];
    for i := 0 to |ts|
      invariant seen.Keys == Ids(ts[..i])
      invariant UniqueIds(ts[..i])
      invariant forall t :: t in ts[..i] ==> TaskFieldsValid(t)
    {
      var task := ts[i];
      assert task in ts;
      if Blank(task.id) || task.agent.UnknownAgent? || !SupportedStatus(task.status) { return false, seen; }
      if task.id in seen {
        var t :| t in ts[..i] && t.id == task.id;
        var k :| 0 <= k < i && ts[k] == t;
        return false, seen;
      }
      assert ts[..i+1] == ts[..i] + [task];
      seen := seen[task.id := task];
    }
    assert ts[..|ts|] == ts;
    ok := true;
  }

  /** The search for a cycle, started from every task. */
  method CheckCycles(ts: seq<Task>, graph: map<Id, seq<Id>>, ids: set<Id>) returns (ok: bool)
    requires ids == Ids(ts) && Tabulates(graph, ts) && forall a :: a in graph ==> forall b :: b in graph[a] ==> b in ids
    ensures ok <==> Acyclic(GraphOf(ts))
  {
    TableEdges(graph, ts);
    var search := new CycleSearch(graph, ids);
    var rest := ids;
    while rest != {}
      invariant rest <= ids
      invariant search.Valid() && search.visiting == {} && search.universe == ids && search.graph == graph
      invariant ids - rest <= search.visited
    {
      var id :| id in rest;
      var fine := search.Visit(id);
      if !fine { return false; }
      rest := rest - {id};
    }
    forall v ensures !Reaches(GraphOf(ts), v, v) {
      if Reaches(GraphOf(ts), v, v) {
        var d := FirstStep(GraphOf(ts), v, v);
      }
    }
    return true;
  }

  /** The edge checks and the adjacency table they leave behind. */
  method BuildGraph(ts: seq<Task>, ids: set<Id>) returns (ok: bool, graph: map<Id, seq<Id>>)
    requires UniqueIds(ts) && ids == Ids(ts)
    ensures ok <==> EdgesValid(ts)
    ensures ok ==> Tabulates(graph, ts) && forall a :: a in graph ==> forall b :: b in graph[a] ==> b in ids
  {
    graph := map[];
    for i := 0 to |ts|
      invariant Tabulates(graph, ts[..i])
      invariant forall t :: t in ts[..i] ==> TaskEdgesValid(t, ids)
      invariant forall a :: a in graph ==> forall b :: b in graph[a] ==> b in ids
    {
      var task := ts[i];
      assert task in ts;
      NewKey(graph, ts, i);
      ok, graph := AddEdges(graph, task, ids);
      if !ok { return; }
      assert ts[..i+1] == ts[..i] + [task];
    }
    assert ts[..|ts|] == ts;
    ok := true;
  }

  lemma NewKey(graph: map<Id, seq<Id>>, ts: seq<Task>, i: nat)
    requires UniqueIds(ts) && i < |ts| && Tabulates(graph, ts[..i])
    ensures ts[i].id !in graph && forall t :: t in ts[..i] ==> t.id != ts[i].id
  {
    forall t | t in ts[..i] ensures t.id != ts[i].id {
      var k :| 0 <= k < i && ts[k] == t;
    }
  }

  method AddEdges(before: map<Id, seq<Id>>, task: Task, ids: set<Id>) returns (ok: bool, graph: map<Id, seq<Id>>)
    requires task.id !in before
    ensures ok <==> TaskEdgesValid(task, ids)
    ensures ok ==> graph == if task.deps == [] then before else before[task.id := task.deps]
  {
    graph := before;
    var dependencies: set<Id> := {};
    for j := 0 to |task.deps|
      invariant dependencies == set d | d in task.deps[..j]
      invariant NoDuplicates(task.deps[..j]) && forall d :: d in task.deps[..j] ==> d in ids
      invariant graph == if j == 0 then before else before[task.id := task.deps[..j]]
    {
      var dep := task.deps[j];
      assert dep in task.deps;
      if dep in dependencies || dep !in ids { return false, graph; }
      dependencies := dependencies + {dep};
      assert task.deps[..j+1] == task.deps[..j] + [dep];
      graph := graph[task.id := (if task.id in graph then graph[task.id] else []) + [dep]];
    }
    assert task.deps[..|task.deps|] == task.deps;
    ok := true;
  }

  /** The status recorded for an id; an unknown id reads as the empty status. */
  function StatusOf(ts: seq<Task>, id: Id): Status {
    if ts == [] then Unset
    else if ts[|ts|-1].id == id then ts[|ts|-1].status
    else StatusOf(ts[..|ts|-1], id)
  }

  lemma {:induction false} StatusOfMember(ts: seq<Task>, t: Task)
    requires UniqueIds(ts) && t in ts
    ensures StatusOf(ts, t.id) == t.status
  {
    var last := ts[|ts|-1];
    if t != last {
      assert t in ts[..|ts|-1];
      var k :| 0 <= k < |ts| - 1 && ts[k] == t;
      StatusOfMember(ts[..|ts|-1], t);
    }
  }

  lemma {:induction false} StatusOfAbsent(ts: seq<Task>, id: Id)
    requires id !in Ids(ts)
    ensures StatusOf(ts, id) == Unset
  {
    if ts != [] {
      assert ts[|ts|-1] in ts;
      assert Ids(ts[..|ts|-1]) <= Ids(ts);
      StatusOfAbsent(ts[..|ts|-1], id);
    }
  }

  predicate Waits(t: Task) { t.status.Unset? || t.status.Pending? }

  predicate IsReady(ts: seq<Task>, t: Task) {
    Waits(t) && forall d :: d in t.deps ==> StatusOf(ts, d).Succeeded?
  }

  /** The ready tasks among a prefix `some` of the plan, in plan order. */
  function ReadyAmong(ts: seq<Task>, some: seq<Task>): seq<Task> {
    if some == [] then []
    else
      var last := some[|some|-1];
      ReadyAmong(ts, some[..|some|-1]) + if IsReady(ts, last) then [last] else []
  }

  function Ready(ts: seq<Task>): seq<Task> { ReadyAmong(ts, ts) }

  lemma {:induction false} ReadyAmongMembers(ts: seq<Task>, some: seq<Task>, t: Task)
    ensures t in ReadyAmong(ts, some) <==> t in some && IsReady(ts, t)
  {
    if some != [] {
      var init := some[..|some|-1];
      assert some == init + [some[|some|-1]];
      ReadyAmongMembers(ts, init, t);
    }
  }

  /** `ReadyTasks`: the waiting tasks all of whose dependencies succeeded, in plan order. */
  method ReadyTasks(ts: seq<Task>) returns (ready: seq<Task>)
    ensures ready == Ready(ts)
    ensures forall t :: t in ready <==> t in ts && IsReady(ts, t)
  {
    var status: map<Id, Status> := map[];
    for i := 0 to |ts|
      invariant forall id :: StatusOf(ts[..i], id) == if id in status then status[id] else Unset
    {
      assert ts[..i+1][..i] == ts[..i];
      status := status[ts[i].id := ts[i].status];
    }
    assert ts[..|ts|] == ts;
    ready := [];
    for i := 0 to |ts|
      invariant ready == ReadyAmong(ts, ts[..i])
    {
      var task := ts[i];
      var ok := Waits(task);
      if ok {
        var j := 0;
        while j < |task.deps| && ok
          invariant 0 <= j <= |task.deps|
          invariant ok <==> forall k :: 0 <= k < j ==> StatusOf(ts, task.deps[k]).Succeeded?
        {
          var dep := task.deps[j];
          if !(dep in status && status[dep].Succeeded?) { ok := false; }
          j := j + 1;
        }
      }
      assert ok <==> IsReady(ts, task);
      if ok { ready := ready + [task]; }
      assert ts[..i+1][..i] == ts[..i];
    }
    forall t ensures t in ready <==> t in ts && IsReady(ts, t) { ReadyAmongMembers(ts, ts, t); }
  }

  predicate Dead(s: Status) { s.Failed? || s.Canceled? }

  /** No task is in flight: each one waits or has ended. */
  ghost predicate Settled(ts: seq<Task>) {
    forall t :: t in ts ==> Waits(t) || t.status.Succeeded? || Dead(t.status)
  }

  /** Tasks that may still run or have succeeded never depend on a dead task. */
  ghost predicate LiveDependencies(ts: seq<Task>) {
    forall t :: t in ts && !Dead(t.status) ==> forall d :: d in t.deps ==> !Dead(StatusOf(ts, d))
  }

  /** Deadlock freedom: nothing is ready only when nothing waits. */
  lemma ReadyUnlessNothingWaits(ts: seq<Task>)
    requires WellFormedGraph(ts) && Settled(ts) && LiveDependencies(ts)
    ensures Ready(ts) == [] <==> forall t :: t in ts ==> !Waits(t)
  {
    var waiting := set t | t in ts && Waits(t) :: t.id;
    assert forall t :: t in ts && Waits(t) ==> t.id in waiting;
    if waiting != {} {
      var m := MinimalMember(GraphOf(ts), waiting);
      var t :| t in ts && Waits(t) && t.id == m;
      forall d | d in t.deps ensures StatusOf(ts, d).Succeeded? {
        assert (t.id, d) in GraphOf(ts);
        var u :| u in ts && u.id == d;
        StatusOfMember(ts, u);
      }
      ReadyAmongMembers(ts, ts, t);
      assert t in Ready(ts);
    } else {
      if Ready(ts) != [] { ReadyAmongMembers(ts, ts, Ready(ts)[0]); }
    }
  }
}
