/** Dependency graphs: reachability over explicit paths, and the two recursive
    searches the plan code runs over them. An edge `(a, b)` says that task `a`
    depends on task `b`. */
module Digraph {

  type Id = string
  type Graph = set<(Id, Id)>

  ghost predicate IsPath(g: Graph, p: seq<Id>) {
    |p| >= 2 && forall i :: 0 <= i < |p| - 1 ==> (p[i], p[i+1]) in g
  }

  ghost predicate PathFrom(g: Graph, p: seq<Id>, a: Id, b: Id) {
    IsPath(g, p) && p[0] == a && p[|p|-1] == b
  }

  /** `b` is reachable from `a` in at least one step: `b` is an ancestor of `a`. */
  ghost predicate Reaches(g: Graph, a: Id, b: Id) {
    exists p :: PathFrom(g, p, a, b)
  }

  ghost predicate Acyclic(g: Graph) {
    forall v :: !Reaches(g, v, v)
  }

  ghost predicate Closed(g: Graph, s: set<Id>) {
    forall e :: e in g && e.0 in s ==> e.1 in s
  }

  lemma EdgeReaches(g: Graph, a: Id, b: Id)
    requires (a, b) in g
    ensures Reaches(g, a, b)
  {
    assert PathFrom(g, [a, b], a, b);
  }

  lemma ReachesTransitive(g: Graph, a: Id, b: Id, c: Id)
    requires Reaches(g, a, b) && Reaches(g, b, c)
    ensures Reaches(g, a, c)
  {
    var p :| PathFrom(g, p, a, b);
    var q :| PathFrom(g, q, b, c);
    var r := p + q[1..];
    forall i | 0 <= i < |r| - 1 ensures (r[i], r[i+1]) in g {
      if i < |p| - 1 {
        assert r[i] == p[i] && r[i+1] == p[i+1];
      } else {
        assert r[i] == q[i-|p|+1] && r[i+1] == q[i-|p|+2];
      }
    }
    assert PathFrom(g, r, a, c);
  }

  lemma ReachesMonotone(g: Graph, h: Graph, a: Id, b: Id)
    requires g <= h && Reaches(g, a, b)
    ensures Reaches(h, a, b)
  {
    var p :| PathFrom(g, p, a, b);
    assert PathFrom(h, p, a, b);
  }

  lemma AcyclicAntitone(g: Graph, h: Graph)
    requires g <= h && Acyclic(h)
    ensures Acyclic(g)
  {
    forall v ensures !Reaches(g, v, v) {
      if Reaches(g, v, v) { ReachesMonotone(g, h, v, v); }
    }
  }

  lemma ReachesInClosed(g: Graph, s: set<Id>, a: Id, b: Id)
    requires Closed(g, s) && a in s && Reaches(g, a, b)
    ensures b in s
  {
    var p :| PathFrom(g, p, a, b);
    PathInClosed(g, s, p, |p| - 1);
  }

  lemma {:induction false} PathInClosed(g: Graph, s: set<Id>, p: seq<Id>, n: nat)
    requires Closed(g, s) && IsPath(g, p) && p[0] in s && n < |p|
    ensures p[n] in s
  {
    if n > 0 {
      PathInClosed(g, s, p, n - 1);
      assert (p[n-1], p[n]) in g;
    }
  }

  /** A path starts with an edge; what follows is a path unless it is that edge alone. */
  lemma FirstStep(g: Graph, a: Id, c: Id) returns (b: Id)
    requires Reaches(g, a, c)
    ensures (a, b) in g && (b == c || Reaches(g, b, c))
  {
    var p :| PathFrom(g, p, a, c);
    b := p[1];
    assert (p[0], p[1]) in g;
    if |p| > 2 {
      forall i | 0 <= i < |p[1..]| - 1 ensures (p[1..][i], p[1..][i+1]) in g {
        assert (p[i+1], p[i+2]) in g;
      }
      assert PathFrom(g, p[1..], b, c);
    }
  }

  /** In an acyclic graph every non-empty finite set of tasks has a member none of
      whose dependencies lie in the set: the fact behind deadlock freedom. */
  lemma {:induction false} MinimalMember(g: Graph, s: set<Id>) returns (m: Id)
    requires Acyclic(g) && s != {}
    ensures m in s && forall d :: (m, d) in g ==> d !in s
    decreases |s|
  {
    m :| m in s;
    var below := set d | d in s && Reaches(g, m, d);
    if below == {} {
      forall d | (m, d) in g ensures d !in s { EdgeReaches(g, m, d); assert d !in below; }
    } else {
      var top := m;
      assert below <= s - {top};
      SubsetSize(below, s - {top});
      m := MinimalMember(g, below);
      forall d | (m, d) in g ensures d !in s {
        EdgeReaches(g, m, d);
        ReachesTransitive(g, top, m, d);
        assert d !in below;
      }
    }
  }

  lemma {:induction false} SubsetSize<T>(a: set<T>, b: set<T>)
    requires a <= b
    ensures |a| <= |b|
  {
    if a != {} {
      var x :| x in a;
      SubsetSize(a - {x}, b - {x});
    }
  }

  /** Adding edges out of one node `s` to targets `ts` creates a cycle exactly when
      there was one already or some target reaches (or is) `s`. */
  lemma NewEdgesAcyclic(g: Graph, s: Id, ts: set<Id>)
    ensures var h := g + (set t | t in ts :: (s, t));
            Acyclic(h) <==> Acyclic(g) && s !in ts && forall t :: t in ts ==> !Reaches(g, t, s)
  {
    var h := g + (set t | t in ts :: (s, t));
    if Acyclic(h) {
      AcyclicAntitone(g, h);
      if s in ts { assert (s, s) in h; EdgeReaches(h, s, s); }
      forall t | t in ts ensures !Reaches(g, t, s) {
        if Reaches(g, t, s) {
          assert (s, t) in h;
          EdgeReaches(h, s, t);
          ReachesMonotone(g, h, t, s);
          ReachesTransitive(h, s, t, s);
        }
      }
    }
    if Acyclic(g) && s !in ts && forall t :: t in ts ==> !Reaches(g, t, s) {
      forall v ensures !Reaches(h, v, v) {
        if Reaches(h, v, v) {
          var p :| PathFrom(h, p, v, v);
          NoCycleThroughNewEdge(g, s, ts, p);
        }
      }
    }
  }

  lemma NoCycleThroughNewEdge(g: Graph, s: Id, ts: set<Id>, p: seq<Id>)
    requires Acyclic(g) && s !in ts && forall t :: t in ts ==> !Reaches(g, t, s)
    requires IsPath(g + (set t | t in ts :: (s, t)), p)
    ensures p[0] != p[|p|-1]
  {
    var h := g + (set t | t in ts :: (s, t));
    if p[0] == p[|p|-1] {
      if IsPath(g, p) {
        assert PathFrom(g, p, p[0], p[0]);
        assert Reaches(g, p[0], p[0]);
        assert false;
      }
      // Some edge of the cycle leaves `s`: rotate the cycle to start there.
      var k :| 0 <= k < |p| - 1 && (p[k], p[k+1]) !in g;
      assert (p[k], p[k+1]) in h;
      assert p[k] == s && p[k+1] in ts;
      var q := p[k+1..] + p[1..k+1];
      forall i | 0 <= i < |q| - 1 ensures (q[i], q[i+1]) in h {
        var n := |p| - k - 1;
        if i < n - 1 {
          assert (q[i], q[i+1]) == (p[k+1+i], p[k+2+i]);
        } else {
          assert q[i+1] == p[i+1-n+1];
          assert q[i] == p[i-n+1];
        }
      }
      assert q[|q|-1] == s by {
        if k > 0 { assert q[|q|-1] == p[k]; } else { assert q == p[1..]; }
      }
      ReturnToSource(g, s, ts, q);
    }
  }

  /** A path back to `s` leaves, after its last added edge, only old edges. */
  lemma {:induction false} ReturnToSource(g: Graph, s: Id, ts: set<Id>, q: seq<Id>)
    requires |q| >= 1 && q[|q|-1] == s && s !in ts
    requires forall i :: 0 <= i < |q| - 1 ==> (q[i], q[i+1]) in g + (set t | t in ts :: (s, t))
    ensures q[0] == s || Reaches(g, q[0], s) || exists t :: t in ts && Reaches(g, t, s)
  {
    if |q| > 1 {
      var h := g + (set t | t in ts :: (s, t));
      forall i | 0 <= i < |q[1..]| - 1 ensures (q[1..][i], q[1..][i+1]) in h {
        assert (q[i+1], q[i+2]) in h;
      }
      ReturnToSource(g, s, ts, q[1..]);
      assert (q[0], q[1]) in h;
      if (q[0], q[1]) in g {
        EdgeReaches(g, q[0], q[1]);
        if Reaches(g, q[1], s) { ReachesTransitive(g, q[0], q[1], s); }
      }
    }
  }

  /** The edges of an adjacency table; a missing key has no dependencies. */
  ghost function EdgesOf(m: map<Id, seq<Id>>): Graph {
    set a, b | a in m && b in m[a] :: (a, b)
  }

  /** The `visiting`/`visited` search of `ExecutionPlan.Validate`. */
  class CycleSearch {
    const graph: map<Id, seq<Id>>
    ghost const universe: set<Id>
    var visiting: set<Id>
    var visited: set<Id>

    constructor (graph: map<Id, seq<Id>>, ghost universe: set<Id>)
      requires forall a :: a in graph ==> forall b :: b in graph[a] ==> b in universe
      ensures this.graph == graph && this.universe == universe && Valid()
      ensures visiting == {} && visited == {}
    {
      this.graph, this.universe := graph, universe;
      visiting, visited := {}, {};
    }

    /** Everything visited is finished: closed under dependencies and on no cycle. */
    ghost predicate Valid()
      reads this
    {
      && (forall a :: a in graph ==> forall b :: b in graph[a] ==> b in universe)
      && visiting !! visited && visiting + visited <= universe
      && Closed(EdgesOf(graph), visited)
      && forall v :: v in visited ==> !Reaches(EdgesOf(graph), v, v)
    }

    /** Terminates on every graph: each call takes one more task of the universe. */
    method Visit(id: Id) returns (ok: bool)
      requires Valid() && id in universe
      requires forall u :: u in visiting ==> Reaches(EdgesOf(graph), u, id)
      modifies this`visiting, this`visited
      ensures ok ==> Valid() && visiting == old(visiting) && old(visited) + {id} <= visited
      ensures !ok ==> !Acyclic(EdgesOf(graph))
      decreases universe - visiting - visited
    {
      ghost var g := EdgesOf(graph);
      if id in visiting { return false; }
      if id in visited { return true; }
      visiting := visiting + {id};
      var deps := if id in graph then graph[id] else [];
      for i := 0 to |deps|
        invariant Valid() && visiting == old(visiting) + {id} && old(visited) <= visited
        invariant forall j :: 0 <= j < i ==> deps[j] in visited
      {
        assert (id, deps[i]) in g;
        EdgeReaches(g, id, deps[i]);
        forall u | u in visiting ensures Reaches(g, u, deps[i]) {
          if u != id { ReachesTransitive(g, u, id, deps[i]); }
        }
        assert id in universe - old(visiting) - old(visited);
        var fine := Visit(deps[i]);
        if !fine { return false; }
      }
      if Reaches(g, id, id) {
        var d := FirstStep(g, id, id);
        assert d in visited;
        if d != id { ReachesInClosed(g, visited, d, id); }
        assert false;
      }
      visiting := visiting - {id};
      visited := visited + {id};
      return true;
    }
  }

  /** The `covered`/`ancestors` walk shared by the coverage rules. */
  class AncestorWalk {
    const graph: map<Id, seq<Id>>
    ghost const universe: set<Id>
    var covered: set<Id>

    constructor (graph: map<Id, seq<Id>>)
      ensures this.graph == graph && covered == {}
      ensures forall e :: e in EdgesOf(graph) ==> e.1 in universe
    {
      this.graph := graph;
      this.universe := set e | e in EdgesOf(graph) :: e.1;
      covered := {};
    }

    method Walk(id: Id, ghost root: Id)
      requires forall e :: e in EdgesOf(graph) ==> e.1 in universe
      requires id == root || Reaches(EdgesOf(graph), root, id)
      requires forall d :: d in covered ==> Reaches(EdgesOf(graph), root, d)
      modifies this`covered
      ensures old(covered) <= covered
      ensures forall d :: d in covered ==> Reaches(EdgesOf(graph), root, d)
      ensures forall e :: e in EdgesOf(graph) && (e.0 == id || e.0 in covered - old(covered)) ==> e.1 in covered
      decreases universe - covered
    {
      ghost var g := EdgesOf(graph);
      var deps := if id in graph then graph[id] else [];
      for i := 0 to |deps|
        invariant old(covered) <= covered
        invariant forall d :: d in covered ==> Reaches(g, root, d)
        invariant forall j :: 0 <= j < i ==> deps[j] in covered
        invariant forall e :: e in g && e.0 in covered - old(covered) ==> e.1 in covered
      {
        var dep := deps[i];
        if dep !in covered {
          assert (id, dep) in g;
          EdgeReaches(g, id, dep);
          if id != root { ReachesTransitive(g, root, id, dep); }
          covered := covered + {dep};
          Walk(dep, root);
        }
      }
    }
  }

  /** The walk collects exactly the ancestors of `root`. */
  method Ancestors(graph: map<Id, seq<Id>>, root: Id) returns (found: set<Id>)
    ensures forall d :: d in found <==> Reaches(EdgesOf(graph), root, d)
  {
    var walk := new AncestorWalk(graph);
    walk.Walk(root, root);
    found := walk.covered;
    ghost var g := EdgesOf(graph);
    forall d | Reaches(g, root, d) ensures d in found {
      var b := FirstStep(g, root, d);
      assert Closed(g, found);
      if b != d { ReachesInClosed(g, found, b, d); }
    }
  }
}
