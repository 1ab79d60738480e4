/** The queue of messages waiting for an embedding: one row per message, changed only by
    guarded statements that many workers issue concurrently. A worker holds a row through
    a lease token; crashed workers are recovered by the lease running out. */
module EmbeddingQueue {
  import opened Options

  type Id = nat
  type Token = nat
  type Vector = seq<real>

  datatype Status = Idle | Queued | Running | Succeeded | Failed

  datatype Row = Row(
    content: string, status: Status, attempts: int, available: int,
    lease: Option<int>, token: Option<Token>, vector: Option<Vector>, error: string)

  /** What a worker received from a claim. */
  datatype Job = Job(id: Id, content: string, attempts: int, token: Token)

  // ----- what each statement does to one row -----

  predicate Expired(r: Row, now: int) { r.status.Running? && r.lease.Some? && r.lease.value <= now }

  predicate Exhausted(max: int, r: Row, now: int) {
    r.attempts >= max && (r.status.Queued? || Expired(r, now))
  }

  function Ended(r: Row, status: Status, error: string): Row {
    r.(status := status, error := error, lease := None, token := None)
  }

  function ExhaustRow(max: int, r: Row, now: int): Row {
    if Exhausted(max, r, now) then Ended(r, Failed, "attempts_exhausted") else r
  }

  predicate Claimable(max: int, r: Row, now: int) {
    r.vector.None? && r.attempts < max && ((r.status.Queued? && r.available <= now) || Expired(r, now))
  }

  function TakeRow(r: Row, token: Token, until: int): Row {
    r.(status := Running, attempts := r.attempts + 1, token := Some(token), lease := Some(until), error := "")
  }

  /** The fence: the row runs under this token and its lease has not run out. */
  predicate Held(r: Row, token: Token, now: int) {
    r.status.Running? && r.token == Some(token) && r.lease.Some? && r.lease.value > now
  }

  predicate Completable(r: Row, job: Job, now: int) {
    Held(r, job.token, now) && r.content == job.content && r.vector.None?
  }

  function CompleteRow(r: Row, job: Job, v: Vector, now: int): Row {
    if Completable(r, job, now) then Ended(r, Succeeded, "").(vector := Some(v)) else r
  }

  function FailRow(r: Row, token: Token, retry: bool, delay: int, code: string, now: int): Row {
    if Held(r, token, now) then
      Ended(r, if retry then Queued else Failed, code).(available := now + delay)
    else r
  }

  function ReleaseRow(r: Row, token: Token, now: int): Row {
    if Held(r, token, now) then
      Ended(r, Queued, "").(attempts := r.attempts - 1, available := now)
    else r
  }

  predicate Blank(content: string) { forall c :: c in content ==> c == ' ' }

  predicate Missing(r: Row, retryFailed: bool) {
    r.vector.None? && !Blank(r.content) && (r.status.Idle? || (retryFailed && r.status.Failed?))
  }

  function RequeueRow(r: Row, now: int): Row {
    r.(status := Queued, attempts := 0, available := now, error := "")
  }

  // ----- the whole table -----

  /** `used` and `known` record every token and message id ever issued: both are random
      identifiers that are not issued twice. */
  datatype Queue = Queue(rows: map<Id, Row>, now: int, used: set<Token>, known: set<Id>)

  datatype Event =
    | Tick(elapsed: nat)
    | Insert(id: Id, content: string, queued: bool)
    | Delete(id: Id)
    | Exhaust
    | Take(taken: Id, token: Token, period: nat, locked: set<Id>)
    | Complete(job: Job, v: Vector)
    | Fail(job: Job, retry: bool, delay: int, code: string)
    | Release(job: Job)
    | QueueMissing(batch: set<Id>, limit: nat, retryFailed: bool, locked: set<Id>)

  predicate Candidate(max: int, q: Queue, locked: set<Id>, id: Id) {
    id in q.rows && id !in locked && Claimable(max, q.rows[id], q.now)
  }

  predicate Earlier(q: Queue, a: Id, b: Id)
    requires a in q.rows && b in q.rows
  {
    q.rows[a].available < q.rows[b].available || (q.rows[a].available == q.rows[b].available && a <= b)
  }

  /** The row a claim locks: the first candidate by availability, then id, that no other
      transaction has locked. */
  ghost predicate FirstCandidate(max: int, q: Queue, locked: set<Id>, id: Id) {
    Candidate(max, q, locked, id) && forall b :: Candidate(max, q, locked, b) ==> Earlier(q, id, b)
  }

  predicate Requeueable(q: Queue, retryFailed: bool, locked: set<Id>, id: Id) {
    id in q.rows && id !in locked && Missing(q.rows[id], retryFailed)
  }

  /** The `limit` smallest ids among the rows without an embedding. */
  ghost predicate FirstMissing(q: Queue, batch: set<Id>, limit: nat, retryFailed: bool, locked: set<Id>) {
    && (forall id :: id in batch ==> Requeueable(q, retryFailed, locked, id))
    && |batch| <= limit
    && (forall id :: Requeueable(q, retryFailed, locked, id) && id !in batch ==>
          |batch| == limit && forall b :: b in batch ==> b < id)
  }

  ghost predicate Enabled(max: int, q: Queue, e: Event) {
    match e
    case Insert(id, content, queued) => id !in q.known && (queued ==> !Blank(content))
    case Take(id, token, _, locked) => token !in q.used && FirstCandidate(max, q, locked, id)
    case QueueMissing(batch, limit, retryFailed, locked) => FirstMissing(q, batch, limit, retryFailed, locked)
    case _ => true
  }

  function NewRow(content: string, queued: bool, now: int): Row {
    Row(content, if queued then Queued else Idle, 0, now, None, None, None, "")
  }

  function RowAfter(max: int, q: Queue, e: Event, id: Id): Row
    requires id in q.rows
  {
    var r := q.rows[id];
    match e
    case Exhaust => ExhaustRow(max, r, q.now)
    case Take(taken, token, period, _) => if id == taken then TakeRow(r, token, q.now + period) else r
    case Complete(job, v) => if id == job.id then CompleteRow(r, job, v, q.now) else r
    case Fail(job, retry, delay, code) => if id == job.id then FailRow(r, job.token, retry, delay, code, q.now) else r
    case Release(job) => if id == job.id then ReleaseRow(r, job.token, q.now) else r
    case QueueMissing(batch, _, _, _) => if id in batch then RequeueRow(r, q.now) else r
    case _ => r
  }

  function Updated(max: int, q: Queue, e: Event): map<Id, Row> {
    map id | id in q.rows :: RowAfter(max, q, e, id)
  }

  function After(max: int, q: Queue, e: Event): Queue {
    match e
    case Tick(elapsed) => q.(now := q.now + elapsed)
    case Insert(id, content, queued) =>
      q.(rows := q.rows[id := NewRow(content, queued, q.now)], known := q.known + {id})
    case Delete(id) => q.(rows := q.rows - {id})
    case Take(_, token, _, _) => q.(rows := Updated(max, q, e), used := q.used + {token})
    case _ => q.(rows := Updated(max, q, e))
  }

  // ----- what every statement keeps -----

  predicate RowOk(max: int, used: set<Token>, r: Row) {
    && 0 <= r.attempts <= max
    && (r.status.Running? <==> r.token.Some?) && (r.status.Running? <==> r.lease.Some?)
    && (r.status.Running? ==> r.attempts >= 1)
    && (r.token.Some? ==> r.token.value in used)
    && (r.status.Succeeded? <==> r.vector.Some?)
  }

  ghost predicate Inv(max: int, q: Queue) {
    && max >= 1
    && (forall id :: id in q.rows ==> id in q.known && RowOk(max, q.used, q.rows[id]))
    && (forall a, b :: a in q.rows && b in q.rows && q.rows[a].token.Some? && q.rows[a].token == q.rows[b].token
          ==> a == b)
  }

  lemma Guarded(max: int, q: Queue, e: Event, id: Id)
    requires Enabled(max, q, e)
    ensures e.Take? && e.taken == id ==> id in q.rows && Claimable(max, q.rows[id], q.now)
    ensures e.QueueMissing? && id in e.batch ==> id in q.rows && Missing(q.rows[id], e.retryFailed)
  {
    if e.Take? && e.taken == id { assert Candidate(max, q, e.locked, id); }
    if e.QueueMissing? && id in e.batch { assert Requeueable(q, e.retryFailed, e.locked, id); }
  }

  lemma RowKept(max: int, q: Queue, e: Event, id: Id)
    requires Inv(max, q) && Enabled(max, q, e) && id in q.rows
    ensures RowOk(max, After(max, q, e).used, RowAfter(max, q, e, id))
    ensures RowAfter(max, q, e, id).token.Some? ==>
              RowAfter(max, q, e, id).token == q.rows[id].token
              || (e.Take? && id == e.taken && RowAfter(max, q, e, id).token == Some(e.token))
  {
    assert RowOk(max, q.used, q.rows[id]);
    Guarded(max, q, e, id);
  }

  lemma StepKeeps(max: int, q: Queue, e: Event)
    requires Inv(max, q) && Enabled(max, q, e)
    ensures Inv(max, After(max, q, e))
  {
    var t := After(max, q, e);
    forall id | id in t.rows
      ensures id in t.known && RowOk(max, t.used, t.rows[id])
      ensures id in q.rows ==> t.rows[id] == RowAfter(max, q, e, id)
    {
      if id in q.rows { RowKept(max, q, e, id); }
    }
    forall a, b | a in t.rows && b in t.rows && t.rows[a].token.Some? && t.rows[a].token == t.rows[b].token
      ensures a == b
    {
      if a in q.rows { RowKept(max, q, e, a); }
      if b in q.rows { RowKept(max, q, e, b); }
      assert a in q.rows && b in q.rows;
      assert RowOk(max, q.used, q.rows[a]) && RowOk(max, q.used, q.rows[b]);
    }
  }

  // ----- runs -----

  ghost predicate IsRun(max: int, states: seq<Queue>, events: seq<Event>) {
    && |states| == |events| + 1 && Inv(max, states[0])
    && forall i :: 0 <= i < |events| ==>
         Enabled(max, states[i], events[i]) && states[i+1] == After(max, states[i], events[i])
  }

  lemma {:induction false} RunKeeps(max: int, states: seq<Queue>, events: seq<Event>, i: nat)
    requires IsRun(max, states, events) && i < |states|
    ensures Inv(max, states[i])
  {
    if i > 0 {
      RunKeeps(max, states, events, i - 1);
      StepKeeps(max, states[i-1], events[i-1]);
    }
  }

  /** A row that is there later was there all the time since it was first seen. */
  lemma StepRow(max: int, q: Queue, e: Event, id: Id)
    requires Inv(max, q) && Enabled(max, q, e) && id in q.known && id in After(max, q, e).rows
    ensures id in q.rows && After(max, q, e).rows[id] == RowAfter(max, q, e, id)
    ensures id in After(max, q, e).known && q.used <= After(max, q, e).used && q.now <= After(max, q, e).now
  {}

  lemma {:induction false} Known(max: int, states: seq<Queue>, events: seq<Event>, i: nat, j: nat)
    requires IsRun(max, states, events) && i <= j < |states|
    ensures states[i].known <= states[j].known && states[i].used <= states[j].used && states[i].now <= states[j].now
    decreases j
  {
    if i < j { Known(max, states, events, i, j - 1); }
  }

  /** One step of a run seen from a row that existed before and exists after it. */
  lemma RunRow(max: int, states: seq<Queue>, events: seq<Event>, i: nat, id: Id)
    requires IsRun(max, states, events) && i < |events| && id in states[i].known && id in states[i+1].rows
    ensures Inv(max, states[i]) && id in states[i].rows && RowOk(max, states[i].used, states[i].rows[id])
    ensures states[i+1].rows[id] == RowAfter(max, states[i], events[i], id)
  {
    RunKeeps(max, states, events, i);
    StepRow(max, states[i], events[i], id);
  }

  // ----- a vector is written once -----

  predicate Completes(max: int, q: Queue, e: Event, id: Id) {
    e.Complete? && e.job.id == id && id in q.rows && Completable(q.rows[id], e.job, q.now)
  }

  /** How often a message received its vector. */
  function Completions(max: int, states: seq<Queue>, events: seq<Event>, id: Id): nat
    requires |states| == |events| + 1
  {
    if events == [] then 0
    else
      Completions(max, states[..|events|], events[..|events|-1], id)
      + if Completes(max, states[|events|-1], events[|events|-1], id) then 1 else 0
  }

  lemma RunPrefix(max: int, states: seq<Queue>, events: seq<Event>)
    requires IsRun(max, states, events) && events != []
    ensures IsRun(max, states[..|events|], events[..|events|-1])
  {}

  /** Once written, a vector stays as it is, and the row stays succeeded. */
  lemma {:induction false} VectorIsFinal(max: int, states: seq<Queue>, events: seq<Event>, i: nat, j: nat, id: Id)
    requires IsRun(max, states, events) && i <= j < |states|
    requires id in states[i].rows && states[i].rows[id].vector.Some? && id in states[j].rows
    ensures states[j].rows[id] == states[i].rows[id]
    decreases j
  {
    if i < j {
      RunKeeps(max, states, events, i);
      Known(max, states, events, i, j - 1);
      RunRow(max, states, events, j - 1, id);
      VectorIsFinal(max, states, events, i, j - 1, id);
      assert RowOk(max, states[i].used, states[i].rows[id]);
      var q, e := states[j-1], events[j-1];
      Guarded(max, q, e, id);
    }
  }

  /** At most one completion per message ever succeeds, and it leaves the message deleted
      or succeeded for good. */
  lemma {:induction false} CompletedOnce(max: int, states: seq<Queue>, events: seq<Event>, id: Id)
    requires IsRun(max, states, events)
    ensures Completions(max, states, events, id) <= 1
    ensures Completions(max, states, events, id) == 1 ==>
              id in states[|events|].known && (id in states[|events|].rows ==> states[|events|].rows[id].vector.Some?)
  {
    if events != [] {
      var n := |events| - 1;
      var before := states[..|events|];
      RunPrefix(max, states, events);
      CompletedOnce(max, before, events[..n], id);
      assert before[n] == states[n];
      RunKeeps(max, states, events, n);
      if Completions(max, before, events[..n], id) == 1 {
        if id in states[n+1].rows {
          RunRow(max, states, events, n, id);
          VectorIsFinal(max, states, events, n, n + 1, id);
        }
      } else if Completes(max, states[n], events[n], id) {
        assert id in states[n].known;
      }
    }
  }

  // ----- fencing -----

  predicate HoldsToken(q: Queue, id: Id, token: Token) { id in q.rows && q.rows[id].token == Some(token) }

  /** A token that was issued and is not on the row does not come back to it. */
  lemma {:induction false} StaleStaysStale(max: int, states: seq<Queue>, events: seq<Event>, i: nat, j: nat, id: Id,
                                           token: Token)
    requires IsRun(max, states, events) && i <= j < |states|
    requires token in states[i].used && !HoldsToken(states[i], id, token)
    ensures !HoldsToken(states[j], id, token)
    decreases j
  {
    if i < j {
      StaleStaysStale(max, states, events, i, j - 1, id, token);
      Known(max, states, events, i, j - 1);
      RunKeeps(max, states, events, j - 1);
      var q, e := states[j-1], events[j-1];
      if id in q.rows && id in states[j].rows && !e.Insert? {
        StepRow(max, q, e, id);
        RowKept(max, q, e, id);
      }
    }
  }

  /** The whole time between two moments at which a row carries a token, nobody claims,
      settles, releases or requeues the row. */
  lemma {:induction false} HoldIsUnbroken(max: int, states: seq<Queue>, events: seq<Event>, i: nat, k: nat, j: nat,
                                          id: Id, token: Token)
    requires IsRun(max, states, events) && i <= k <= j < |states|
    requires HoldsToken(states[i], id, token) && HoldsToken(states[j], id, token)
    ensures id in states[k].rows && states[k].rows[id] == states[i].rows[id]
    decreases k
  {
    RunKeeps(max, states, events, i);
    assert RowOk(max, states[i].used, states[i].rows[id]);
    Known(max, states, events, i, k);
    if !HoldsToken(states[k], id, token) {
      StaleStaysStale(max, states, events, k, j, id, token);
    } else if i < k {
      HoldIsUnbroken(max, states, events, i, k - 1, j, id, token);
      RunRow(max, states, events, k - 1, id);
      TokenStep(max, states[k-1], events[k-1], id, token);
    }
  }

  lemma TokenStep(max: int, q: Queue, e: Event, id: Id, token: Token)
    requires Inv(max, q) && Enabled(max, q, e) && HoldsToken(q, id, token)
    requires RowAfter(max, q, e, id).token == Some(token)
    ensures RowAfter(max, q, e, id) == q.rows[id]
  {
    assert RowOk(max, q.used, q.rows[id]);
    Guarded(max, q, e, id);
  }

  /** The job's statement changes its row. */
  predicate Settles(q: Queue, e: Event, id: Id, token: Token) {
    && (e.Complete? || e.Fail? || e.Release?) && e.job.id == id && e.job.token == token && id in q.rows
    && (if e.Complete? then Completable(q.rows[id], e.job, q.now) else Held(q.rows[id], token, q.now))
  }

  /** Only the holder of the current, unexpired token changes a row by settling it, and
      between its claim and that moment nobody else touched the row. */
  lemma SettledByHolder(max: int, states: seq<Queue>, events: seq<Event>, i: nat, j: nat, id: Id)
    requires IsRun(max, states, events) && i < j < |events|
    requires events[i].Take? && events[i].taken == id && Settles(states[j], events[j], id, events[i].token)
    ensures states[j].rows[id] == TakeRow(states[i].rows[id], events[i].token, states[i].now + events[i].period)
    ensures states[j].now < states[i].now + events[i].period
    ensures forall k :: i < k <= j ==> id in states[k].rows && states[k].rows[id] == states[i+1].rows[id]
  {
    Guarded(max, states[i], events[i], id);
    forall k | i < k <= j
      ensures id in states[k].rows && states[k].rows[id] == states[i+1].rows[id]
    {
      HoldIsUnbroken(max, states, events, i + 1, k, j, id, events[i].token);
    }
  }

  /** A claim is settled at most once. */
  lemma SettledOnce(max: int, states: seq<Queue>, events: seq<Event>, i: nat, j: nat, id: Id, token: Token)
    requires IsRun(max, states, events) && i < j < |events|
    requires Settles(states[i], events[i], id, token)
    ensures !Settles(states[j], events[j], id, token)
  {
    RunKeeps(max, states, events, i);
    assert RowOk(max, states[i].used, states[i].rows[id]);
    Known(max, states, events, i, i + 1);
    StaleStaysStale(max, states, events, i + 1, j, id, token);
  }

  // ----- bounded work -----

  predicate Active(r: Row) { r.status.Queued? || r.status.Running? }

  /** Strictly decreases with every change of the row, except releasing and requeueing it. */
  function Remaining(max: int, r: Row): int {
    if !Active(r) then 0 else 1 + 2 * (max - r.attempts) + if r.status.Running? then 1 else 0
  }

  /** The event would start the row anew: it gives an attempt back or requeues the row. */
  predicate Restarts(e: Event, id: Id) { (e.Release? && e.job.id == id) || (e.QueueMissing? && id in e.batch) }

  lemma StepWorks(max: int, q: Queue, e: Event, id: Id)
    requires Inv(max, q) && Enabled(max, q, e) && id in q.rows && !Restarts(e, id)
    ensures 0 <= Remaining(max, RowAfter(max, q, e, id)) <= Remaining(max, q.rows[id])
    ensures RowAfter(max, q, e, id) != q.rows[id] ==>
              Remaining(max, RowAfter(max, q, e, id)) < Remaining(max, q.rows[id])
  {
    assert RowOk(max, q.used, q.rows[id]);
    RowKept(max, q, e, id);
    Guarded(max, q, e, id);
  }

  /** How often the row changed in the run. */
  function Changes(states: seq<Queue>, id: Id): nat
    requires forall i :: 0 <= i < |states| ==> id in states[i].rows
  {
    if |states| <= 1 then 0
    else
      var n := |states| - 1;
      Changes(states[..n], id) + if states[n].rows[id] == states[n-1].rows[id] then 0 else 1
  }

  /** While nobody releases or requeues it, a row changes at most `2 * max + 2` times before it
      stops for good. */
  lemma {:induction false} WorkIsBounded(max: int, states: seq<Queue>, events: seq<Event>, id: Id)
    requires IsRun(max, states, events) && forall i :: 0 <= i < |states| ==> id in states[i].rows
    requires forall i :: 0 <= i < |events| ==> !Restarts(events[i], id)
    ensures Changes(states, id) + Remaining(max, states[|events|].rows[id])
            <= Remaining(max, states[0].rows[id]) <= 2 * max + 2
  {
    if events == [] {
      assert RowOk(max, states[0].used, states[0].rows[id]);
    } else {
      var n := |events| - 1;
      RunPrefix(max, states, events);
      WorkIsBounded(max, states[..|events|], events[..n], id);
      RunKeeps(max, states, events, n);
      RunRow(max, states, events, n, id);
      StepWorks(max, states[n], events[n], id);
    }
  }

  predicate TakesRow(e: Event, id: Id) { e.Take? && e.taken == id }

  function Claims(events: seq<Event>, id: Id): nat {
    if events == [] then 0
    else Claims(events[..|events|-1], id) + if TakesRow(events[|events|-1], id) then 1 else 0
  }

  function Releases(states: seq<Queue>, events: seq<Event>, id: Id): nat
    requires |states| == |events| + 1
  {
    if events == [] then 0
    else
      var n := |events| - 1;
      Releases(states[..|events|], events[..n], id)
      + GivenBack(states[n], events[n], id)
  }

  function GivenBack(q: Queue, e: Event, id: Id): nat {
    if e.Release? && Settles(q, e, id, e.job.token) then 1 else 0
  }

  lemma AttemptsStep(max: int, q: Queue, e: Event, id: Id)
    requires Inv(max, q) && Enabled(max, q, e) && id in q.rows && !(e.QueueMissing? && id in e.batch)
    ensures RowAfter(max, q, e, id).attempts + GivenBack(q, e, id)
            == q.rows[id].attempts + if TakesRow(e, id) then 1 else 0
  {
    assert RowOk(max, q.used, q.rows[id]);
  }

  lemma {:induction false} AttemptsAdd(max: int, states: seq<Queue>, events: seq<Event>, id: Id)
    requires IsRun(max, states, events) && forall i :: 0 <= i < |states| ==> id in states[i].rows
    requires forall i :: 0 <= i < |events| ==> !(events[i].QueueMissing? && id in events[i].batch)
    ensures states[|events|].rows[id].attempts + Releases(states, events, id)
         == states[0].rows[id].attempts + Claims(events, id)
  {
    if events != [] {
      var n := |events| - 1;
      RunPrefix(max, states, events);
      AttemptsAdd(max, states[..|events|], events[..n], id);
      RunKeeps(max, states, events, n);
      RunRow(max, states, events, n, id);
      AttemptsStep(max, states[n], events[n], id);
    }
  }

  /** Attempts are the claims that were not given back, so a message is claimed at most
      `max` times plus once for every release. */
  lemma AttemptsAccount(max: int, states: seq<Queue>, events: seq<Event>, id: Id)
    requires IsRun(max, states, events) && forall i :: 0 <= i < |states| ==> id in states[i].rows
    requires forall i :: 0 <= i < |events| ==> !(events[i].QueueMissing? && id in events[i].batch)
    ensures states[|events|].rows[id].attempts + Releases(states, events, id)
         == states[0].rows[id].attempts + Claims(events, id)
    ensures Claims(events, id) <= max + Releases(states, events, id)
  {
    AttemptsAdd(max, states, events, id);
    assert RowOk(max, states[0].used, states[0].rows[id]);
    RunKeeps(max, states, events, |events|);
    assert RowOk(max, states[|events|].used, states[|events|].rows[id]);
  }

  /** No row is stuck: once the clock passes its availability and its lease, an active row
      either can be claimed or is ended by the claim's first statement, never both. */
  lemma NeverStuck(max: int, q: Queue, id: Id, now: int)
    requires Inv(max, q) && id in q.rows && Active(q.rows[id])
    requires now >= q.rows[id].available && (q.rows[id].lease.Some? ==> now >= q.rows[id].lease.value)
    ensures Claimable(max, q.rows[id], now) <==> !Exhausted(max, q.rows[id], now)
  {
    assert RowOk(max, q.used, q.rows[id]);
  }
}
