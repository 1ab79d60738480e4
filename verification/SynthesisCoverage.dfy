/** Completing the dependencies of the pending synthesis after a re-plan. */
module SynthesisCoverage {
  import opened Digraph
  import opened ExecutionPlan

  /** A research task whose result the synthesis still has to take into account. */
  predicate Research(t: Task) { t.agent != SynthesisReview && !Dead(t.status) }

  /** The live research tasks among `some` that `synthesis` does not reach yet. */
  ghost function Uncovered(ts: seq<Task>, synthesis: Id, some: seq<Task>): seq<Id> {
    if some == [] then []
    else
      var last := some[|some|-1];
      Uncovered(ts, synthesis, some[..|some|-1])
      + if Research(last) && !Reaches(GraphOf(ts), synthesis, last.id) then [last.id] else []
  }

  ghost predicate PendingAt(ts: seq<Task>, synthesis: Id, index: int) {
    0 <= index < |ts| && ts[index].id == synthesis && ts[index].status.Pending?
  }

  ghost function Completed(ts: seq<Task>, synthesis: Id): (out: seq<Task>)
    ensures |out| == |ts|
  {
    if index :| PendingAt(ts, synthesis, index) then
      ts[index := ts[index].(deps := ts[index].deps + Uncovered(ts, synthesis, ts))]
    else ts
  }

  lemma {:induction false} UncoveredMembers(ts: seq<Task>, synthesis: Id, some: seq<Task>, a: Id)
    ensures a in Uncovered(ts, synthesis, some) <==>
            exists t :: t in some && t.id == a && Research(t) && !Reaches(GraphOf(ts), synthesis, a)
  {
    if some != [] {
      var init := some[..|some|-1];
      assert some == init + [some[|some|-1]];
      UncoveredMembers(ts, synthesis, init, a);
      assert forall t :: t in some <==> t in init || t == some[|some|-1];
    }
  }

  lemma {:induction false} UncoveredDistinct(ts: seq<Task>, synthesis: Id, some: seq<Task>)
    requires UniqueIds(some)
    ensures NoDuplicates(Uncovered(ts, synthesis, some))
  {
    if some != [] {
      var init, last := some[..|some|-1], some[|some|-1];
      UncoveredDistinct(ts, synthesis, init);
      UncoveredMembers(ts, synthesis, init, last.id);
    }
  }

  ghost function NewEdges(s: Id, targets: seq<Id>): Graph {
    set a | a in targets :: (s, a)
  }

  /** The completion touches only the dependencies of the one pending synthesis, and
      what it appends there are fresh edges to live research tasks. */
  lemma CompletionIsLocal(ts: seq<Task>, synthesis: Id)
    requires UniqueIds(ts)
    ensures var out := Completed(ts, synthesis);
      && UniqueIds(out) && Ids(out) == Ids(ts)
      && (forall i :: 0 <= i < |ts| && !PendingAt(ts, synthesis, i) ==> out[i] == ts[i])
      && (forall i :: PendingAt(ts, synthesis, i) ==>
            out[i] == ts[i].(deps := ts[i].deps + Uncovered(ts, synthesis, ts)))
      && ((exists i :: PendingAt(ts, synthesis, i)) ==>
            GraphOf(out) == GraphOf(ts) + NewEdges(synthesis, Uncovered(ts, synthesis, ts)))
      && (forall a :: a in Uncovered(ts, synthesis, ts) ==> (synthesis, a) !in GraphOf(ts))
      && NoDuplicates(Uncovered(ts, synthesis, ts))
  {
    var out := Completed(ts, synthesis);
    UncoveredDistinct(ts, synthesis, ts);
    forall a | a in Uncovered(ts, synthesis, ts) ensures (synthesis, a) !in GraphOf(ts) {
      UncoveredMembers(ts, synthesis, ts, a);
      if (synthesis, a) in GraphOf(ts) { EdgeReaches(GraphOf(ts), synthesis, a); }
    }
    if index :| PendingAt(ts, synthesis, index) {
      forall id | id in Ids(ts) ensures id in Ids(out) {
        var t :| t in ts && t.id == id;
        var k :| 0 <= k < |ts| && ts[k] == t;
        assert out[k] in out;
      }
      forall id | id in Ids(out) ensures id in Ids(ts) {
        var t :| t in out && t.id == id;
        var k :| 0 <= k < |out| && out[k] == t;
        assert ts[k] in ts;
      }
      var added := NewEdges(synthesis, Uncovered(ts, synthesis, ts));
      forall e | e in GraphOf(out) ensures e in GraphOf(ts) + added {
        var t :| t in out && t.id == e.0 && e.1 in t.deps;
        var k :| 0 <= k < |out| && out[k] == t;
        assert ts[k] in ts;
      }
      forall e | e in GraphOf(ts) + added ensures e in GraphOf(out) {
        assert out[index] in out;
        if e in GraphOf(ts) {
          var t :| t in ts && t.id == e.0 && e.1 in t.deps;
          var k :| 0 <= k < |ts| && ts[k] == t;
          assert out[k] in out;
        }
      }
    }
  }

  /** Afterwards the pending synthesis reaches every live research task. */
  lemma CompletionCovers(ts: seq<Task>, synthesis: Id, t: Task)
    requires UniqueIds(ts) && exists i :: PendingAt(ts, synthesis, i)
    requires t in ts && Research(t)
    ensures Reaches(GraphOf(Completed(ts, synthesis)), synthesis, t.id)
  {
    CompletionIsLocal(ts, synthesis);
    var out := Completed(ts, synthesis);
    if Reaches(GraphOf(ts), synthesis, t.id) {
      ReachesMonotone(GraphOf(ts), GraphOf(out), synthesis, t.id);
    } else {
      UncoveredMembers(ts, synthesis, ts, t.id);
      EdgeReaches(GraphOf(out), synthesis, t.id);
    }
  }

  /** The graph stays acyclic exactly when no appended task already reached the synthesis. */
  lemma CompletionAcyclic(ts: seq<Task>, synthesis: Id)
    requires UniqueIds(ts)
    requires exists t :: t in ts && t.id == synthesis && t.agent == SynthesisReview && t.status.Pending?
    ensures Acyclic(GraphOf(Completed(ts, synthesis))) <==>
            Acyclic(GraphOf(ts)) &&
            forall a :: a in Uncovered(ts, synthesis, ts) ==> !Reaches(GraphOf(ts), a, synthesis)
  {
    var s :| s in ts && s.id == synthesis && s.agent == SynthesisReview && s.status.Pending?;
    var k :| 0 <= k < |ts| && ts[k] == s;
    assert PendingAt(ts, synthesis, k);
    CompletionIsLocal(ts, synthesis);
    var added := Uncovered(ts, synthesis, ts);
    var targets := set a | a in added;
    assert synthesis !in targets by { UncoveredMembers(ts, synthesis, ts, synthesis); }
    assert NewEdges(synthesis, added) == set t | t in targets :: (synthesis, t);
    NewEdgesAcyclic(GraphOf(ts), synthesis, targets);
  }

  /** `completeSynthesisDependencies`, on the plan's task slice. */
  method CompleteSynthesisDependencies(tasks: array<Task>, synthesis: Id)
    requires UniqueIds(tasks[..])
    modifies tasks
    ensures tasks[..] == Completed(old(tasks[..]), synthesis)
  {
    ghost var ts := tasks[..];
    var index, byId := LookUp(tasks, synthesis);
    if index < 0 || !tasks[index].status.Pending? {
      assert !exists i :: PendingAt(ts, synthesis, i);
      return;
    }
    assert PendingAt(ts, synthesis, index);
    TabulatedEdges(byId, ts);
    var covered := Ancestors(byId, synthesis);
    AppendUncovered(tasks, index, covered);
  }

  method LookUp(tasks: array<Task>, synthesis: Id) returns (index: int, byId: map<Id, seq<Id>>)
    requires UniqueIds(tasks[..])
    ensures Tabulated(byId, tasks[..]) && -1 <= index < tasks.Length
    ensures if index < 0 then forall k :: 0 <= k < tasks.Length ==> tasks[k].id != synthesis
            else tasks[index].id == synthesis
  {
    index, byId := -1, map[];
    for i := 0 to tasks.Length
      invariant Tabulated(byId, tasks[..i])
      invariant -1 <= index < i
      invariant if index < 0 then forall k :: 0 <= k < i ==> tasks[k].id != synthesis else tasks[index].id == synthesis
    {
      assert tasks[..i+1] == tasks[..i] + [tasks[i]];
      ghost var ts := tasks[..];
      forall t | t in ts[..i] ensures t.id != ts[i].id {
        var k :| 0 <= k < i && ts[k] == t;
      }
      byId := byId[tasks[i].id := tasks[i].deps];
      if tasks[i].id == synthesis { index := i; }
    }
    assert tasks[..tasks.Length] == tasks[..];
  }

  method AppendUncovered(tasks: array<Task>, index: nat, covered: set<Id>)
    requires index < tasks.Length
    requires forall d :: d in covered <==> Reaches(GraphOf(tasks[..]), tasks[index].id, d)
    modifies tasks
    ensures var ts := old(tasks[..]);
            tasks[..] == ts[index := ts[index].(deps := ts[index].deps + Uncovered(ts, ts[index].id, ts))]
  {
    ghost var ts := tasks[..];
    ghost var more := [];
    assert ts[index].deps + more == ts[index].deps;
    for i := 0 to tasks.Length
      invariant more == Uncovered(ts, ts[index].id, ts[..i])
      invariant forall k :: 0 <= k < tasks.Length && k != index ==> tasks[k] == ts[k]
      invariant tasks[index] == ts[index].(deps := ts[index].deps + more)
    {
      assert ts[..i+1][..i] == ts[..i];
      var task := tasks[i];
      if task.agent == SynthesisReview || task.status.Failed? || task.status.Canceled? || task.id in covered {
        continue;
      }
      assert ts[index].deps + more + [task.id] == ts[index].deps + (more + [task.id]);
      tasks[index] := tasks[index].(deps := tasks[index].deps + [task.id]);
      more := more + [task.id];
    }
    assert ts[..|ts|] == ts;
  }

  ghost predicate Tabulated(byId: map<Id, seq<Id>>, ts: seq<Task>) {
    byId.Keys == Ids(ts) && forall t :: t in ts ==> byId[t.id] == t.deps
  }

  lemma TabulatedEdges(byId: map<Id, seq<Id>>, ts: seq<Task>)
    requires Tabulated(byId, ts)
    ensures EdgesOf(byId) == GraphOf(ts)
  {
    forall e | e in EdgesOf(byId) ensures e in GraphOf(ts) {
      var t :| t in ts && t.id == e.0;
      assert e.1 in t.deps;
    }
  }
}
