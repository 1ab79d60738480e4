/** Quota-bounded immutable storage of tool results. Saves of one user are serialized by a
    lock; saves of other users, sweeps and clock ticks run between their steps. */
module ArtifactStore {
  import opened Options

  datatype Artifact = Artifact(
    id: string, user: string, session: string, run: string, agent: string, task: string,
    content: string, hash: string, bytes: int, version: int, created: int, expires: int)

  datatype Limits = Limits(artifact: int, run: int, user: int)

  datatype Scope = Scope(user: string, session: string, run: string, agent: string, task: string)

  datatype Checkpoint = Checkpoint(session: string, expires: int)

  datatype Outcome = Saved | Already | Unavailable | OverQuota

  type Hash = string -> string

  function ScopeOf(a: Artifact): Scope { Scope(a.user, a.session, a.run, a.agent, a.task) }

  // ----- one table -----

  predicate WellFormed(h: Hash, a: Artifact) {
    a.version == 1 && a.bytes == |a.content| && a.hash == h(a.content)
    && a.user != "" && a.session != "" && a.run != "" && a.expires > a.created
  }

  predicate LimitsAllow(l: Limits, bytes: int) {
    l.artifact > 0 && l.run >= l.artifact && l.user >= l.run && bytes <= l.artifact
  }

  predicate DistinctIds(rows: seq<Artifact>) { forall i, j :: 0 <= i < j < |rows| ==> rows[i].id != rows[j].id }

  /** Bytes stored for a user, in one run when given. */
  function Usage(rows: seq<Artifact>, user: string, run: Option<string>): int {
    if rows == [] then 0
    else
      var k := |rows| - 1;
      Usage(rows[..k], user, run)
      + if rows[k].user == user && (run.None? || rows[k].run == run.value) then rows[k].bytes else 0
  }

  function Lookup(rows: seq<Artifact>, id: string): (r: Option<Artifact>)
    ensures r.Some? <==> exists k :: 0 <= k < |rows| && rows[k].id == id
    ensures r.Some? ==> r.value in rows && r.value.id == id
  {
    if rows == [] then None
    else
      var k := |rows| - 1;
      if rows[k].id == id then Some(rows[k]) else Lookup(rows[..k], id)
  }

  /** A resumable run of the session keeps its artifacts alive. */
  predicate Alive(checkpoints: seq<Checkpoint>, a: Artifact, now: int) {
    || a.expires > now
    || exists k :: 0 <= k < |checkpoints| && checkpoints[k].session == a.session && checkpoints[k].expires > now
  }

  function Swept(rows: seq<Artifact>, checkpoints: seq<Checkpoint>, now: int): seq<Artifact> {
    if rows == [] then []
    else
      var k := |rows| - 1;
      Swept(rows[..k], checkpoints, now) + if Alive(checkpoints, rows[k], now) then [rows[k]] else []
  }

  predicate Owned(sessions: map<string, string>, session: string, user: string) {
    session in sessions && sessions[session] == user
  }

  /** What a save decides after it has the lock, from what it reads. */
  function Decide(l: Limits, rows: seq<Artifact>, sessions: map<string, string>, a: Artifact): Outcome {
    if !Owned(sessions, a.session, a.user) then Unavailable
    else
      match Lookup(rows, a.id)
      case Some(e) => if ScopeOf(e) == ScopeOf(a) && e.hash == a.hash then Already else Unavailable
      case None =>
        if Usage(rows, a.user, None) > l.user - a.bytes || Usage(rows, a.user, Some(a.run)) > l.run - a.bytes
        then OverQuota
        else Saved
  }

  function Find(rows: seq<Artifact>, sessions: map<string, string>, checkpoints: seq<Checkpoint>, s: Scope,
                id: string, now: int): Option<Artifact> {
    match Lookup(rows, id)
    case None => None
    case Some(a) =>
      if ScopeOf(a) != s || !Owned(sessions, a.session, a.user) || !Alive(checkpoints, a, now) then None else Some(a)
  }

  lemma {:induction false} SweptMember(rows: seq<Artifact>, checkpoints: seq<Checkpoint>, now: int, a: Artifact)
    ensures a in Swept(rows, checkpoints, now) <==> a in rows && Alive(checkpoints, a, now)
  {
    if rows != [] {
      var k := |rows| - 1;
      SweptMember(rows[..k], checkpoints, now, a);
      assert a in rows <==> a in rows[..k] || a == rows[k];
    }
  }

  lemma {:induction false} LookupMember(rows: seq<Artifact>, a: Artifact)
    requires DistinctIds(rows) && a in rows
    ensures Lookup(rows, a.id) == Some(a)
  {
    var k := |rows| - 1;
    if rows[k].id != a.id {
      LookupMember(rows[..k], a);
    } else {
      var j :| 0 <= j < |rows| && rows[j] == a;
    }
  }

  /** An artifact is findable under its own scope at a time exactly when its session
      belongs to its owner and a sweep at that time would keep it. */
  lemma FoundExactlyWhenKept(rows: seq<Artifact>, sessions: map<string, string>, checkpoints: seq<Checkpoint>,
                             a: Artifact, now: int)
    requires DistinctIds(rows) && a in rows
    ensures Find(rows, sessions, checkpoints, ScopeOf(a), a.id, now) == Some(a)
            <==> Owned(sessions, a.session, a.user) && a in Swept(rows, checkpoints, now)
    ensures forall s :: Find(rows, sessions, checkpoints, s, a.id, now).Some? ==> s == ScopeOf(a)
  {
    LookupMember(rows, a);
    SweptMember(rows, checkpoints, now, a);
  }

  // ----- what is accepted and what is kept -----

  /** The bytes of the user's rows from position `i` on, in one run when given. */
  function TotalFrom(rows: seq<Artifact>, user: string, run: Option<string>, i: nat): int
    requires i <= |rows|
    decreases |rows| - i
  {
    if i == |rows| then 0
    else if rows[i].user != user || (run.Some? && rows[i].run != run.value) then TotalFrom(rows, user, run, i + 1)
    else rows[i].bytes + TotalFrom(rows, user, run, i + 1)
  }

  lemma {:induction false} UsageSplits(rows: seq<Artifact>, user: string, run: Option<string>, i: nat)
    requires i <= |rows|
    ensures Usage(rows, user, run) == Usage(rows[..i], user, run) + TotalFrom(rows, user, run, i)
    decreases |rows| - i
  {
    if i == |rows| {
      assert rows[..i] == rows;
    } else {
      UsageSplits(rows, user, run, i + 1);
      assert rows[..i+1][..i] == rows[..i];
    }
  }

  lemma UsageIsTotal(rows: seq<Artifact>, user: string, run: Option<string>)
    ensures Usage(rows, user, run) == TotalFrom(rows, user, run, 0)
  {
    UsageSplits(rows, user, run, 0);
    assert rows[..0] == [];
  }

  /** The same owner, scope and content. */
  predicate SameArtifact(e: Artifact, a: Artifact) {
    && e.id == a.id && e.user == a.user && e.session == a.session && e.run == a.run && e.agent == a.agent
    && e.task == a.task && e.hash == a.hash
  }

  /** An artifact whose id is new is accepted exactly when the session is its user's and both
      the user's total and the run's total stay within their limits. */
  lemma FirstSave(l: Limits, rows: seq<Artifact>, sessions: map<string, string>, a: Artifact)
    requires forall k :: 0 <= k < |rows| ==> rows[k].id != a.id
    ensures var owned := a.session in sessions && sessions[a.session] == a.user;
            var fits := TotalFrom(rows, a.user, None, 0) + a.bytes <= l.user
                        && TotalFrom(rows, a.user, Some(a.run), 0) + a.bytes <= l.run;
            Decide(l, rows, sessions, a) == if !owned then Unavailable else if fits then Saved else OverQuota
  {
    UsageIsTotal(rows, a.user, None);
    UsageIsTotal(rows, a.user, Some(a.run));
  }

  /** One whose id is taken is never stored: it is there already, or the id is another's. */
  lemma LaterSave(l: Limits, rows: seq<Artifact>, sessions: map<string, string>, a: Artifact, e: Artifact)
    requires DistinctIds(rows) && e in rows && e.id == a.id
    ensures var owned := a.session in sessions && sessions[a.session] == a.user;
            Decide(l, rows, sessions, a) == if owned && SameArtifact(e, a) then Already else Unavailable
  {
    LookupMember(rows, e);
  }

  /** `out` are the needed rows in their order, `at` their positions. */
  ghost predicate KeepsAt(checkpoints: seq<Checkpoint>, rows: seq<Artifact>, now: int, out: seq<Artifact>,
                          at: seq<nat>) {
    && |at| == |out| && (forall i, j :: 0 <= i < j < |at| ==> at[i] < at[j])
    && (forall i :: 0 <= i < |at| ==> at[i] < |rows| && out[i] == rows[at[i]])
    && (forall k :: 0 <= k < |rows| ==> (k in at <==> Needed(checkpoints, rows[k], now)))
  }

  lemma KeepsMore(checkpoints: seq<Checkpoint>, rows: seq<Artifact>, now: int, out: seq<Artifact>, at: seq<nat>)
    requires rows != [] && KeepsAt(checkpoints, rows[..|rows|-1], now, out, at)
    requires Needed(checkpoints, rows[|rows|-1], now)
    ensures KeepsAt(checkpoints, rows, now, out + [rows[|rows|-1]], at + [|rows| - 1])
  {}

  lemma KeepsSame(checkpoints: seq<Checkpoint>, rows: seq<Artifact>, now: int, out: seq<Artifact>, at: seq<nat>)
    requires rows != [] && KeepsAt(checkpoints, rows[..|rows|-1], now, out, at)
    requires !Needed(checkpoints, rows[|rows|-1], now)
    ensures KeepsAt(checkpoints, rows, now, out + [], at)
  {
    assert out + [] == out;
  }

  /** A sweep keeps, in their order, the rows that have not expired and those whose session still
      has a checkpoint that has not. */
  lemma {:induction false} SweepIs(rows: seq<Artifact>, checkpoints: seq<Checkpoint>, now: int) returns (at: seq<nat>)
    ensures KeepsAt(checkpoints, rows, now, Swept(rows, checkpoints, now), at)
  {
    at := [];
    if rows != [] {
      var n := |rows| - 1;
      at := SweepIs(rows[..n], checkpoints, now);
      AliveIs(checkpoints, rows[n], now);
      if Alive(checkpoints, rows[n], now) {
        KeepsMore(checkpoints, rows, now, Swept(rows[..n], checkpoints, now), at);
        at := at + [n];
      } else {
        KeepsSame(checkpoints, rows, now, Swept(rows[..n], checkpoints, now), at);
      }
    }
  }

  /** Not expired, or its session has a checkpoint that is not. */
  ghost predicate Needed(checkpoints: seq<Checkpoint>, a: Artifact, now: int) {
    now < a.expires || exists c :: c in checkpoints && c.session == a.session && now < c.expires
  }

  lemma AliveIs(checkpoints: seq<Checkpoint>, a: Artifact, now: int)
    ensures Alive(checkpoints, a, now) <==> Needed(checkpoints, a, now)
  {
    if c :| c in checkpoints && c.session == a.session && now < c.expires {
      var k :| 0 <= k < |checkpoints| && checkpoints[k] == c;
    }
  }

  // ----- concurrent saves -----

  /** A save that holds its user's lock and has read that there is room. */
  datatype State = State(
    rows: seq<Artifact>, sessions: map<string, string>, checkpoints: seq<Checkpoint>,
    inserting: map<string, Artifact>)

  datatype Event =
    | Begin(artifact: Artifact)
    | Commit(user: string)
    | Abort(user: string)
    | Sweep(now: int)
    | Sessions(sessions: map<string, string>)
    | Checkpoints(checkpoints: seq<Checkpoint>)

  predicate Enabled(h: Hash, l: Limits, s: State, e: Event) {
    match e
    case Begin(a) => WellFormed(h, a) && LimitsAllow(l, a.bytes) && a.user !in s.inserting
    case Commit(user) => user in s.inserting
    case Abort(user) => user in s.inserting
    case _ => true
  }

  /** Inserting fails on an id that another user's save has taken meanwhile. */
  function Inserted(rows: seq<Artifact>, a: Artifact): seq<Artifact> {
    if Lookup(rows, a.id).Some? then rows else rows + [a]
  }

  function After(h: Hash, l: Limits, s: State, e: Event): State
    requires Enabled(h, l, s, e)
  {
    match e
    case Begin(a) =>
      if Decide(l, s.rows, s.sessions, a) == Saved then s.(inserting := s.inserting[a.user := a]) else s
    case Commit(user) => s.(rows := Inserted(s.rows, s.inserting[user]), inserting := s.inserting - {user})
    case Abort(user) => s.(inserting := s.inserting - {user})
    case Sweep(now) => s.(rows := Swept(s.rows, s.checkpoints, now))
    case Sessions(sessions) => s.(sessions := sessions)
    case Checkpoints(checkpoints) => s.(checkpoints := checkpoints)
  }

  ghost predicate WithinQuota(l: Limits, rows: seq<Artifact>) {
    (forall user :: Usage(rows, user, None) <= l.user) && (forall user, run :: Usage(rows, user, Some(run)) <= l.run)
  }

  /** The room that a waiting insert has read is still there. */
  ghost predicate HasRoom(h: Hash, l: Limits, rows: seq<Artifact>, user: string, a: Artifact) {
    && a.user == user && WellFormed(h, a) && LimitsAllow(l, a.bytes)
    && Usage(rows, user, None) + a.bytes <= l.user
    && Usage(rows, user, Some(a.run)) + a.bytes <= l.run
  }

  ghost predicate Inv(h: Hash, l: Limits, s: State) {
    && DistinctIds(s.rows) && WithinQuota(l, s.rows)
    && (forall k :: 0 <= k < |s.rows| ==> WellFormed(h, s.rows[k]))
    && forall user :: user in s.inserting ==> HasRoom(h, l, s.rows, user, s.inserting[user])
  }

  lemma UsageInsert(rows: seq<Artifact>, a: Artifact, user: string, run: Option<string>)
    ensures Usage(rows + [a], user, run)
         == Usage(rows, user, run) + if a.user == user && (run.None? || a.run == run.value) then a.bytes else 0
  {
    assert (rows + [a])[..|rows|] == rows;
  }

  lemma {:induction false} SweepShrinks(h: Hash, rows: seq<Artifact>, checkpoints: seq<Checkpoint>, now: int,
                                        user: string, run: Option<string>)
    requires forall k :: 0 <= k < |rows| ==> WellFormed(h, rows[k])
    ensures Usage(Swept(rows, checkpoints, now), user, run) <= Usage(rows, user, run)
  {
    if rows != [] {
      var k := |rows| - 1;
      SweepShrinks(h, rows[..k], checkpoints, now, user, run);
      var rest := Swept(rows[..k], checkpoints, now);
      assert WellFormed(h, rows[k]);
      if Alive(checkpoints, rows[k], now) { UsageInsert(rest, rows[k], user, run); } else { assert rest + [] == rest; }
    }
  }

  lemma {:induction false} SweepDistinct(rows: seq<Artifact>, checkpoints: seq<Checkpoint>, now: int)
    requires DistinctIds(rows)
    ensures DistinctIds(Swept(rows, checkpoints, now))
  {
    if rows != [] {
      var k := |rows| - 1;
      SweepDistinct(rows[..k], checkpoints, now);
      var rest := Swept(rows[..k], checkpoints, now);
      forall i | 0 <= i < |rest| ensures rest[i].id != rows[k].id {
        SweptMember(rows[..k], checkpoints, now, rest[i]);
        assert rest[i] in rest;
      }
    }
  }

  lemma CommitKeeps(h: Hash, l: Limits, s: State, user: string)
    requires Inv(h, l, s) && user in s.inserting
    ensures Inv(h, l, After(h, l, s, Commit(user)))
  {
    var a, t := s.inserting[user], After(h, l, s, Commit(user));
    assert HasRoom(h, l, s.rows, user, a);
    if Lookup(s.rows, a.id).None? {
      forall u ensures Usage(t.rows, u, None) <= l.user { UsageInsert(s.rows, a, u, None); }
      forall u, run ensures Usage(t.rows, u, Some(run)) <= l.run { UsageInsert(s.rows, a, u, Some(run)); }
      forall u | u in t.inserting ensures HasRoom(h, l, t.rows, u, t.inserting[u]) {
        assert HasRoom(h, l, s.rows, u, s.inserting[u]);
        UsageInsert(s.rows, a, u, None);
        UsageInsert(s.rows, a, u, Some(t.inserting[u].run));
      }
    }
  }

  lemma SweepKeeps(h: Hash, l: Limits, s: State, now: int)
    requires Inv(h, l, s)
    ensures Inv(h, l, After(h, l, s, Sweep(now)))
  {
    var t := After(h, l, s, Sweep(now));
    SweepDistinct(s.rows, s.checkpoints, now);
    forall k | 0 <= k < |t.rows| ensures WellFormed(h, t.rows[k]) {
      SweptMember(s.rows, s.checkpoints, now, t.rows[k]);
    }
    forall u ensures Usage(t.rows, u, None) <= l.user {
      SweepShrinks(h, s.rows, s.checkpoints, now, u, None);
    }
    forall u, run ensures Usage(t.rows, u, Some(run)) <= l.run {
      SweepShrinks(h, s.rows, s.checkpoints, now, u, Some(run));
    }
    forall u | u in t.inserting ensures HasRoom(h, l, t.rows, u, t.inserting[u]) {
      assert HasRoom(h, l, s.rows, u, s.inserting[u]);
      SweepShrinks(h, s.rows, s.checkpoints, now, u, None);
      SweepShrinks(h, s.rows, s.checkpoints, now, u, Some(t.inserting[u].run));
    }
  }

  /** Quotas hold after every step of every interleaving. */
  lemma StepKeeps(h: Hash, l: Limits, s: State, e: Event)
    requires Inv(h, l, s) && Enabled(h, l, s, e)
    ensures Inv(h, l, After(h, l, s, e))
  {
    match e
    case Commit(user) => CommitKeeps(h, l, s, user);
    case Sweep(now) => SweepKeeps(h, l, s, now);
    case _ =>
  }

  /** A stored row is never changed: a step keeps it as it is or sweeps it away. */
  lemma StepIsImmutable(h: Hash, l: Limits, s: State, e: Event, id: string)
    requires Inv(h, l, s) && Enabled(h, l, s, e) && Lookup(s.rows, id).Some?
    ensures var (before, after) := (Lookup(s.rows, id), Lookup(After(h, l, s, e).rows, id));
            after == before || (e.Sweep? && after.None? && !Alive(s.checkpoints, before.value, e.now))
  {
    var a, t := Lookup(s.rows, id).value, After(h, l, s, e);
    StepKeeps(h, l, s, e);
    if e.Sweep? {
      SweptMember(s.rows, s.checkpoints, e.now, a);
      if Lookup(t.rows, id).Some? {
        SweptMember(s.rows, s.checkpoints, e.now, Lookup(t.rows, id).value);
        LookupMember(s.rows, Lookup(t.rows, id).value);
      } else if Alive(s.checkpoints, a, e.now) {
        LookupMember(t.rows, a);
      }
    } else {
      LookupMember(t.rows, a);
    }
  }

  ghost predicate IsRun(h: Hash, l: Limits, states: seq<State>, events: seq<Event>) {
    && |states| == |events| + 1 && Inv(h, l, states[0])
    && forall i :: 0 <= i < |events| ==>
         Enabled(h, l, states[i], events[i]) && states[i+1] == After(h, l, states[i], events[i])
  }

  lemma {:induction false} RunWithinQuota(h: Hash, l: Limits, states: seq<State>, events: seq<Event>, i: nat)
    requires IsRun(h, l, states, events) && i < |states|
    ensures Inv(h, l, states[i])
  {
    if i > 0 {
      RunWithinQuota(h, l, states, events, i - 1);
      StepKeeps(h, l, states[i-1], events[i-1]);
    }
  }

  /** As long as sweeps leave an artifact alone, an id stands for the same artifact. */
  lemma {:induction false} ContentNeverChanges(h: Hash, l: Limits, states: seq<State>, events: seq<Event>, i: nat,
                                               j: nat, id: string)
    requires IsRun(h, l, states, events) && i <= j < |states| && Lookup(states[i].rows, id).Some?
    requires forall k :: i < k <= j ==> Lookup(states[k].rows, id).Some?
    ensures Lookup(states[j].rows, id) == Lookup(states[i].rows, id)
    decreases j
  {
    if i < j {
      ContentNeverChanges(h, l, states, events, i, j - 1, id);
      RunWithinQuota(h, l, states, events, j - 1);
      StepIsImmutable(h, l, states[j-1], events[j-1], id);
    }
  }

  /** Saving again what is stored changes nothing, whatever the quota; another content or
      scope under the same id is refused. */
  lemma SaveAgain(h: Hash, l: Limits, s: State, a: Artifact, e: Artifact)
    requires Inv(h, l, s) && e in s.rows && e.id == a.id && Enabled(h, l, s, Begin(a))
    ensures After(h, l, s, Begin(a)) == s
    ensures Decide(l, s.rows, s.sessions, a) == Already <==>
              Owned(s.sessions, a.session, a.user) && ScopeOf(e) == ScopeOf(a) && h(e.content) == h(a.content)
  {
    LookupMember(s.rows, e);
  }

  // ----- the repository -----

  class Repository {
    var rows: seq<Artifact>
    var sessions: map<string, string>
    var checkpoints: seq<Checkpoint>

    constructor ()
      ensures rows == [] && sessions == map[] && checkpoints == []
    {
      rows, sessions, checkpoints := [], map[], [];
    }

    method FindRow(id: string) returns (r: Option<Artifact>)
      ensures r == Lookup(rows, id)
    {
      r := None;
      for i := 0 to |rows|
        invariant r == Lookup(rows[..i], id)
      {
        assert rows[..i+1][..i] == rows[..i];
        if rows[i].id == id { r := Some(rows[i]); }
      }
      assert rows[..|rows|] == rows;
    }

    method SumBytes(user: string, run: string) returns (userBytes: int, runBytes: int)
      ensures userBytes == Usage(rows, user, None) && runBytes == Usage(rows, user, Some(run))
    {
      userBytes, runBytes := 0, 0;
      for i := 0 to |rows|
        invariant userBytes == Usage(rows[..i], user, None) && runBytes == Usage(rows[..i], user, Some(run))
      {
        assert rows[..i+1][..i] == rows[..i];
        if rows[i].user == user {
          userBytes := userBytes + rows[i].bytes;
          if rows[i].run == run { runBytes := runBytes + rows[i].bytes; }
        }
      }
      assert rows[..|rows|] == rows;
    }

    /** The transaction of a save, run without interruption. */
    method SaveImmutable(h: Hash, l: Limits, a: Artifact) returns (outcome: Outcome)
      modifies this`rows
      ensures outcome == if !WellFormed(h, a) then Unavailable
                         else if !LimitsAllow(l, a.bytes) then OverQuota
                         else Decide(l, old(rows), sessions, a)
      ensures rows == if outcome == Saved then old(rows) + [a] else old(rows)
      ensures outcome == Saved
              <==> a.version == 1 && a.bytes == |a.content| && a.hash == h(a.content) && a.user != ""
                   && a.session != "" && a.run != "" && a.created < a.expires
                   && 0 < l.artifact <= l.run <= l.user && a.bytes <= l.artifact
                   && a.session in sessions && sessions[a.session] == a.user
                   && (forall k :: 0 <= k < |old(rows)| ==> old(rows)[k].id != a.id)
                   && TotalFrom(old(rows), a.user, None, 0) + a.bytes <= l.user
                   && TotalFrom(old(rows), a.user, Some(a.run), 0) + a.bytes <= l.run
    {
      if !WellFormed(h, a) { return Unavailable; }
      if !LimitsAllow(l, a.bytes) { return OverQuota; }
      if !Owned(sessions, a.session, a.user) { return Unavailable; }
      var existing := FindRow(a.id);
      if existing.Some? {
        var e := existing.value;
        if ScopeOf(e) == ScopeOf(a) && e.hash == a.hash { return Already; }
        return Unavailable;
      }
      FirstSave(l, rows, sessions, a);
      var userBytes, runBytes := SumBytes(a.user, a.run);
      if userBytes > l.user - a.bytes || runBytes > l.run - a.bytes { return OverQuota; }
      rows := rows + [a];
      outcome := Saved;
    }

    method FindScoped(s: Scope, id: string, now: int) returns (found: Option<Artifact>)
      ensures found == Find(rows, sessions, checkpoints, s, id, now)
    {
      found := FindRow(id);
      if found.None? { return; }
      var a := found.value;
      if ScopeOf(a) != s || !Owned(sessions, a.session, a.user) { return None; }
      if a.expires <= now {
        var active := CountActive(s.session, now);
        if active == 0 { return None; }
      }
    }

    method CountActive(session: string, now: int) returns (n: nat)
      ensures n == 0 <==> forall k :: 0 <= k < |checkpoints| ==>
                checkpoints[k].session != session || checkpoints[k].expires <= now
    {
      n := 0;
      for i := 0 to |checkpoints|
        invariant n == 0 <==> forall k :: 0 <= k < i ==>
                    checkpoints[k].session != session || checkpoints[k].expires <= now
      {
        if checkpoints[i].session == session && checkpoints[i].expires > now { n := n + 1; }
      }
    }

    method DeleteExpired(now: int) returns (deleted: nat)
      modifies this`rows
      ensures rows == Swept(old(rows), checkpoints, now) && deleted == |old(rows)| - |rows|
    {
      var kept: seq<Artifact> := [];
      for i := 0 to |rows|
        invariant rows == old(rows) && kept == Swept(rows[..i], checkpoints, now) && |kept| <= i
      {
        assert rows[..i+1][..i] == rows[..i];
        if Alive(checkpoints, rows[i], now) { kept := kept + [rows[i]]; }
      }
      assert rows[..|rows|] == rows;
      deleted := |rows| - |kept|;
      rows := kept;
    }
  }
}
