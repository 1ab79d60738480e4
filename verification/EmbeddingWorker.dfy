/** The statements of the embedding queue on a mutable table, and the worker that settles
    the job it claimed. */
module EmbeddingWorker {
  import opened EmbeddingQueue
  import opened Options

  // ----- choosing rows -----

  /** `ORDER BY embedding_available_at, id LIMIT 1 FOR UPDATE SKIP LOCKED`. */
  method FindCandidate(max: int, q: Queue, locked: set<Id>) returns (best: Option<Id>)
    ensures best.None? ==> forall id :: !Candidate(max, q, locked, id)
    ensures best.Some? ==> FirstCandidate(max, q, locked, best.value)
  {
    best := None;
    var ids := q.rows.Keys;
    while ids != {}
      invariant ids <= q.rows.Keys
      invariant best.Some? ==> Candidate(max, q, locked, best.value)
      invariant forall id :: Candidate(max, q, locked, id) && id !in ids ==>
                  best.Some? && Earlier(q, best.value, id)
      decreases |ids|
    {
      var id :| id in ids;
      ids := ids - {id};
      if Candidate(max, q, locked, id) && (best.None? || !Earlier(q, best.value, id)) {
        best := Some(id);
      }
    }
  }

  method SmallestMissing(q: Queue, taken: set<Id>, retryFailed: bool, locked: set<Id>) returns (least: Option<Id>)
    ensures least.None? ==> forall id :: Requeueable(q, retryFailed, locked, id) ==> id in taken
    ensures least.Some? ==>
              Requeueable(q, retryFailed, locked, least.value) && least.value !in taken
              && forall id :: Requeueable(q, retryFailed, locked, id) && id !in taken ==> least.value <= id
  {
    least := None;
    var ids := q.rows.Keys;
    while ids != {}
      invariant ids <= q.rows.Keys
      invariant least.Some? ==> Requeueable(q, retryFailed, locked, least.value) && least.value !in taken
      invariant forall id :: Requeueable(q, retryFailed, locked, id) && id !in taken && id !in ids ==>
                  least.Some? && least.value <= id
      decreases |ids|
    {
      var id :| id in ids;
      ids := ids - {id};
      if Requeueable(q, retryFailed, locked, id) && id !in taken && (least.None? || id < least.value) {
        least := Some(id);
      }
    }
  }

  /** `ORDER BY id LIMIT ? FOR UPDATE SKIP LOCKED`. */
  method FindMissing(q: Queue, limit: nat, retryFailed: bool, locked: set<Id>) returns (batch: set<Id>)
    ensures FirstMissing(q, batch, limit, retryFailed, locked)
  {
    batch := {};
    while |batch| < limit
      invariant |batch| <= limit
      invariant forall id :: id in batch ==> Requeueable(q, retryFailed, locked, id)
      invariant forall b: Id, id: Id :: b in batch && Requeueable(q, retryFailed, locked, id) && id !in batch ==> b < id
      decreases limit - |batch|
    {
      var least := SmallestMissing(q, batch, retryFailed, locked);
      if least.None? { return; }
      batch := batch + {least.value};
    }
  }

  // ----- the table -----

  class MessageTable {
    var rows: map<Id, Row>
    var now: int
    ghost var used: set<Token>
    ghost var known: set<Id>

    constructor (start: int)
      ensures Snapshot() == Queue(map[], start, {}, {})
    {
      rows, now, used, known := map[], start, {}, {};
    }

    ghost function Snapshot(): Queue
      reads this
    {
      Queue(rows, now, used, known)
    }

    /** Both statements of a claim: end rows out of attempts, then take the first candidate
        under a fresh token. */
    method Claim(max: int, period: nat, token: Token, locked: set<Id>) returns (job: Option<Job>)
      requires token !in used
      modifies this
      ensures var q := After(max, old(Snapshot()), Exhaust);
              if job.None? then Snapshot() == q && forall id :: !Candidate(max, q, locked, id)
              else
                var take := Take(job.value.id, token, period, locked);
                && Enabled(max, q, take) && Snapshot() == After(max, q, take)
                && job.value == Job(job.value.id, rows[job.value.id].content, rows[job.value.id].attempts, token)
    {
      rows := map id | id in rows :: ExhaustRow(max, rows[id], now);
      ghost var q := Snapshot();
      assert q.rows == After(max, old(Snapshot()), Exhaust).rows;
      var best := FindCandidate(max, Queue(rows, now, {}, {}), locked);
      if best.None? {
        job := None;
        assert forall id :: Candidate(max, q, locked, id) ==> Candidate(max, Queue(rows, now, {}, {}), locked, id);
        return;
      }
      var id := best.value;
      SameCandidates(max, q, Queue(rows, now, {}, {}), locked, id);
      rows := rows[id := TakeRow(rows[id], token, now + period)];
      used := used + {token};
      job := Some(Job(id, rows[id].content, rows[id].attempts, token));
      assert rows == After(max, q, Take(id, token, period, locked)).rows;
    }

    method Complete(max: int, job: Job, v: Vector) returns (ok: bool)
      modifies this`rows
      ensures Snapshot() == After(max, old(Snapshot()), Event.Complete(job, v))
      ensures ok == Settles(old(Snapshot()), Event.Complete(job, v), job.id, job.token)
    {
      ok := job.id in rows && Completable(rows[job.id], job, now);
      if ok { rows := rows[job.id := CompleteRow(rows[job.id], job, v, now)]; }
      assert rows == After(max, old(Snapshot()), Event.Complete(job, v)).rows;
    }

    method Fail(max: int, job: Job, retry: bool, delay: int, code: string) returns (ok: bool)
      modifies this`rows
      ensures Snapshot() == After(max, old(Snapshot()), Event.Fail(job, retry, delay, code))
      ensures ok == Settles(old(Snapshot()), Event.Fail(job, retry, delay, code), job.id, job.token)
    {
      ok := job.id in rows && Held(rows[job.id], job.token, now);
      if ok { rows := rows[job.id := FailRow(rows[job.id], job.token, retry, delay, code, now)]; }
      assert rows == After(max, old(Snapshot()), Event.Fail(job, retry, delay, code)).rows;
    }

    method Release(max: int, job: Job) returns (ok: bool)
      modifies this`rows
      ensures Snapshot() == After(max, old(Snapshot()), Event.Release(job))
      ensures ok == Settles(old(Snapshot()), Event.Release(job), job.id, job.token)
    {
      ok := job.id in rows && Held(rows[job.id], job.token, now);
      if ok { rows := rows[job.id := ReleaseRow(rows[job.id], job.token, now)]; }
      assert rows == After(max, old(Snapshot()), Event.Release(job)).rows;
    }

    method QueueMissing(max: int, limit: nat, retryFailed: bool, locked: set<Id>) returns (count: nat)
      modifies this`rows
      ensures exists batch: set<Id> ::
                var e := Event.QueueMissing(batch, limit, retryFailed, locked);
                count == |batch| && Enabled(max, old(Snapshot()), e) && Snapshot() == After(max, old(Snapshot()), e)
    {
      ghost var q := Snapshot();
      var batch := FindMissing(Queue(rows, now, {}, {}), limit, retryFailed, locked);
      SameMissing(q, Queue(rows, now, {}, {}), batch, limit, retryFailed, locked);
      rows := map id | id in rows :: if id in batch then RequeueRow(rows[id], now) else rows[id];
      count := |batch|;
      ghost var e := Event.QueueMissing(batch, limit, retryFailed, locked);
      assert Enabled(max, q, e) && rows == After(max, q, e).rows;
    }
  }

  lemma SameCandidates(max: int, q: Queue, r: Queue, locked: set<Id>, id: Id)
    requires q.rows == r.rows && q.now == r.now && FirstCandidate(max, r, locked, id)
    ensures FirstCandidate(max, q, locked, id)
  {
    forall b | Candidate(max, q, locked, b) ensures Earlier(q, id, b) {
      assert Candidate(max, r, locked, b);
    }
  }

  lemma SameMissing(q: Queue, r: Queue, batch: set<Id>, limit: nat, retryFailed: bool, locked: set<Id>)
    requires q.rows == r.rows && FirstMissing(r, batch, limit, retryFailed, locked)
    ensures FirstMissing(q, batch, limit, retryFailed, locked)
  {
    forall id | Requeueable(q, retryFailed, locked, id) && id !in batch
      ensures |batch| == limit && forall b :: b in batch ==> b < id
    {
      assert Requeueable(r, retryFailed, locked, id);
    }
    forall id | id in batch ensures Requeueable(q, retryFailed, locked, id) {
      assert Requeueable(r, retryFailed, locked, id);
    }
  }

  // ----- the worker -----

  datatype Policy = Policy(max: int, dimension: nat, retrySeconds: nat)

  /** A component after conversion to single precision. */
  datatype Component = Finite(x: real) | NotFinite

  /** What the embedding adapter returned; a panic is a classified, lasting error. */
  datatype Embedded =
    | Values(values: seq<Component>)
    | Classified(code: string, temporary: bool)
    | Unclassified
    | DeadlineExceeded

  /** How the worker settles its job. */
  datatype Verdict = GiveBack | Store(v: Vector) | Reject(code: string, retry: bool)

  predicate AllFinite(values: seq<Component>) { forall i :: 0 <= i < |values| ==> values[i].Finite? }

  function Vectorized(values: seq<Component>): Vector
    requires AllFinite(values)
  {
    seq(|values|, i requires 0 <= i < |values| => values[i].x)
  }

  function Failure(e: Embedded): Verdict
    requires !e.Values?
  {
    match e
    case Classified(code, temporary) => Reject(code, temporary)
    case Unclassified => Reject("embedding_failed", false)
    case DeadlineExceeded => Reject("timeout", true)
  }

  function Judgement(p: Policy, stopping: bool, timedOut: bool, e: Embedded): Verdict {
    if stopping then GiveBack
    else if timedOut then Reject("timeout", true)
    else if !e.Values? then Failure(e)
    else if !AllFinite(e.values) then Reject("invalid_vector", false)
    else if |e.values| != p.dimension then Reject("dimension", false)
    else Store(Vectorized(e.values))
  }

  function Doubling(n: nat): (r: nat)
    ensures r >= 1
  {
    if n == 0 then 1 else 2 * Doubling(n - 1)
  }

  /** The statement the worker issues for its job. */
  function Settlement(p: Policy, job: Job, v: Verdict): Event
    requires job.attempts >= 1
  {
    match v
    case GiveBack => Event.Release(job)
    case Store(vector) => Event.Complete(job, vector)
    case Reject(code, retry) =>
      Event.Fail(job, retry && job.attempts < p.max, p.retrySeconds * 1000 * Doubling(job.attempts - 1), code)
  }

  method Convert(p: Policy, values: seq<Component>) returns (converted: Vector, code: string)
    ensures code == "" <==> AllFinite(values) && |values| == p.dimension
    ensures code == "" ==> converted == Vectorized(values)
    ensures code != "" ==> code == if AllFinite(values) then "dimension" else "invalid_vector"
  {
    converted, code := [], "";
    if |values| != p.dimension { code := "dimension"; }
    for i := 0 to |values|
      invariant forall k :: 0 <= k < i ==> values[k].Finite?
      invariant |converted| == i && forall k :: 0 <= k < i ==> converted[k] == values[k].x
      invariant code == if |values| != p.dimension then "dimension" else ""
    {
      if values[i].NotFinite? { return converted, "invalid_vector"; }
      converted := converted + [values[i].x];
    }
  }

  /** `process`: exactly one statement settles the claim, none when the store is down (then
      the lease runs out). A result that arrives after the time limit is not stored. */
  method Process(p: Policy, table: MessageTable, job: Job, stopping: bool, timedOut: bool, e: Embedded, storeUp: bool)
    requires job.attempts >= 1
    modifies table
    ensures table.Snapshot() ==
            if storeUp then
              After(p.max, old(table.Snapshot()), Settlement(p, job, Judgement(p, stopping, timedOut, e)))
            else old(table.Snapshot())
  {
    if stopping {
      if storeUp { var _ := table.Release(p.max, job); }
      return;
    }
    var code, retry := "", false;
    var converted: Vector := [];
    if timedOut {
      code, retry := "timeout", true;
    } else {
      match e {
        case Values(values) => converted, code := Convert(p, values);
        case Classified(given, temporary) => code, retry := given, temporary;
        case Unclassified => code := "embedding_failed";
        case DeadlineExceeded => code, retry := "timeout", true;
      }
    }
    if !storeUp { return; }
    if !timedOut && e.Values? && code == "" {
      var _ := table.Complete(p.max, job, converted);
    } else {
      retry := retry && job.attempts < p.max;
      var _ := table.Fail(p.max, job, retry, p.retrySeconds * 1000 * Doubling(job.attempts - 1), code);
    }
  }

  /** A retried job can be claimed again: the worker's own limit leaves it an attempt, so
      the queue does not end it as exhausted. */
  lemma RetryLeavesAnAttempt(p: Policy, q: Queue, job: Job, stopping: bool, timedOut: bool, e: Embedded, later: int)
    requires Inv(p.max, q) && job.id in q.rows && job.attempts >= 1 && job.attempts == q.rows[job.id].attempts
    requires Settles(q, Settlement(p, job, Judgement(p, stopping, timedOut, e)), job.id, job.token)
    requires !Judgement(p, stopping, timedOut, e).Store?
    ensures var t := After(p.max, q, Settlement(p, job, Judgement(p, stopping, timedOut, e)));
            var r := t.rows[job.id];
            && Active(r) <==> (match Judgement(p, stopping, timedOut, e)
                               case GiveBack => true
                               case Reject(_, retry) => retry && job.attempts < p.max
                               case Store(_) => false)
    ensures var r := After(p.max, q, Settlement(p, job, Judgement(p, stopping, timedOut, e))).rows[job.id];
            Active(r) && later >= r.available ==> Claimable(p.max, r, later) && !Exhausted(p.max, r, later)
  {
    assert RowOk(p.max, q.used, q.rows[job.id]);
  }
}
