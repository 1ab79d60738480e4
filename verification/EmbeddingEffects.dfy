/** What the statements of the embedding queue leave behind, field by field, which vector a
    message ends up with, and what the worker's verdicts come to. */
module EmbeddingEffects {
  import opened EmbeddingQueue
  import opened EmbeddingWorker
  import opened Options

  // ----- one statement -----

  /** The row runs under the job's token and its lease has not run out. */
  predicate UnderLease(q: Queue, job: Job) {
    && job.id in q.rows && q.rows[job.id].status == Running && q.rows[job.id].token == Some(job.token)
    && q.rows[job.id].lease.Some? && q.now < q.rows[job.id].lease.value
  }

  /** Only the row of the job can change. */
  ghost predicate OnlyRow(q: Queue, t: Queue, id: Id) {
    && t.now == q.now && t.used == q.used && t.known == q.known && t.rows.Keys == q.rows.Keys
    && forall other :: other in q.rows && other != id ==> t.rows[other] == q.rows[other]
  }

  /** A completion under the lease, for the content that was claimed and a row without a
      vector, stores exactly the given vector; any other changes nothing. */
  lemma CompletionStores(max: int, q: Queue, job: Job, v: Vector)
    ensures var t := After(max, q, Event.Complete(job, v));
            OnlyRow(q, t, job.id)
            && if UnderLease(q, job) && q.rows[job.id].content == job.content && q.rows[job.id].vector.None?
               then
                 var r := q.rows[job.id];
                 t.rows[job.id] == Row(r.content, Succeeded, r.attempts, r.available, None, None, Some(v), "")
               else t == q
  {
    var t := After(max, q, Event.Complete(job, v));
    if job.id !in q.rows || !Completable(q.rows[job.id], job, q.now) { assert t.rows == q.rows; }
  }

  /** A failure under the lease ends the attempt with its code, and the row waits for the given
      delay if it is to be retried; any other changes nothing. */
  lemma FailureLeaves(max: int, q: Queue, job: Job, retry: bool, delay: int, code: string)
    ensures var t := After(max, q, Event.Fail(job, retry, delay, code));
            OnlyRow(q, t, job.id)
            && if UnderLease(q, job) then
                 var r := q.rows[job.id];
                 t.rows[job.id]
                 == Row(r.content, if retry then Queued else Failed, r.attempts, q.now + delay, None, None, r.vector,
                        code)
               else t == q
  {
    var t := After(max, q, Event.Fail(job, retry, delay, code));
    if job.id !in q.rows || !Held(q.rows[job.id], job.token, q.now) { assert t.rows == q.rows; }
  }

  /** A release under the lease gives the attempt back and makes the row available at once; any
      other changes nothing. */
  lemma ReleaseLeaves(max: int, q: Queue, job: Job)
    ensures var t := After(max, q, Event.Release(job));
            OnlyRow(q, t, job.id)
            && if UnderLease(q, job) then
                 var r := q.rows[job.id];
                 t.rows[job.id] == Row(r.content, Queued, r.attempts - 1, q.now, None, None, r.vector, "")
               else t == q
  {
    var t := After(max, q, Event.Release(job));
    if job.id !in q.rows || !Held(q.rows[job.id], job.token, q.now) { assert t.rows == q.rows; }
  }

  /** The row can be claimed: no vector yet, attempts left, and either its time has come or
      the lease of an earlier claim has run out. */
  predicate Due(max: int, q: Queue, id: Id) {
    && id in q.rows && q.rows[id].vector.None? && q.rows[id].attempts < max
    && ((q.rows[id].status == Queued && q.rows[id].available <= q.now)
        || (q.rows[id].status == Running && q.rows[id].lease.Some? && q.rows[id].lease.value <= q.now))
  }

  /** A claim takes the row that has been available longest among the unlocked due ones, the
      smaller id first, counts an attempt and sets a new token and lease. */
  lemma ClaimTakes(max: int, q: Queue, id: Id, token: Token, period: nat, locked: set<Id>)
    requires Enabled(max, q, Take(id, token, period, locked))
    ensures Due(max, q, id) && id !in locked && token !in q.used
    ensures forall b :: Due(max, q, b) && b !in locked && b != id ==>
              q.rows[id].available < q.rows[b].available || (q.rows[id].available == q.rows[b].available && id < b)
    ensures var (t, r) := (After(max, q, Take(id, token, period, locked)), q.rows[id]);
            && t.rows == q.rows[id := Row(r.content, Running, r.attempts + 1, r.available, Some(q.now + period),
                                          Some(token), r.vector, "")]
            && t.used == q.used + {token} && t.now == q.now && t.known == q.known
  {
    assert Candidate(max, q, locked, id);
    forall b | Due(max, q, b) && b !in locked && b != id
      ensures q.rows[id].available < q.rows[b].available || (q.rows[id].available == q.rows[b].available && id < b)
    {
      assert Candidate(max, q, locked, b);
    }
  }

  /** Whenever some unlocked row is due, a claim takes one. */
  lemma ClaimPossible(max: int, q: Queue, some: Id, token: Token, period: nat, locked: set<Id>) returns (id: Id)
    requires Due(max, q, some) && some !in locked && token !in q.used
    ensures Enabled(max, q, Take(id, token, period, locked))
  {
    assert Candidate(max, q, locked, some);
    id := FirstAmong(max, q, locked, q.rows.Keys, some);
  }

  lemma {:induction false} FirstAmong(max: int, q: Queue, locked: set<Id>, ids: set<Id>, some: Id) returns (id: Id)
    requires ids <= q.rows.Keys && some in ids && Candidate(max, q, locked, some)
    ensures Candidate(max, q, locked, id) && forall b :: b in ids && Candidate(max, q, locked, b) ==> Earlier(q, id, b)
    decreases |ids|
  {
    id := some;
    if other :| other in ids && Candidate(max, q, locked, other) && !Earlier(q, some, other) {
      id := FirstAmong(max, q, locked, ids - {some}, other);
    }
  }

  /** Time passes. */
  lemma TickAdvances(max: int, q: Queue, elapsed: nat)
    ensures After(max, q, Tick(elapsed)).now == q.now + elapsed && After(max, q, Tick(elapsed)).rows == q.rows
  {}

  /** Before that, rows out of attempts whose turn it is, or whose lease has run out, end. */
  lemma ExhaustionEnds(max: int, q: Queue, id: Id)
    requires id in q.rows
    ensures var (r, t) := (q.rows[id], After(max, q, Exhaust));
            && t.rows.Keys == q.rows.Keys && t.now == q.now
            && t.rows[id]
               == if r.attempts >= max
                     && (r.status == Queued || (r.status == Running && r.lease.Some? && r.lease.value <= q.now))
                  then Row(r.content, Failed, r.attempts, r.available, None, None, r.vector, "attempts_exhausted")
                  else r
  {}

  /** Requeueing takes the smallest ids among rows without a vector whose content is not blank
      and that never started, or have failed if those are wanted, and starts them anew. */
  lemma RequeueRestarts(max: int, q: Queue, batch: set<Id>, limit: nat, retryFailed: bool, locked: set<Id>, id: Id)
    requires Enabled(max, q, Event.QueueMissing(batch, limit, retryFailed, locked)) && id in q.rows
    ensures var (r, t) := (q.rows[id], After(max, q, Event.QueueMissing(batch, limit, retryFailed, locked)));
            && t.rows.Keys == q.rows.Keys && t.now == q.now
            && t.rows[id] == if id in batch then Row(r.content, Queued, 0, q.now, r.lease, r.token, r.vector, "") else r
    ensures var r := q.rows[id];
            var wanted := id !in locked && r.vector.None? && (exists c :: c in r.content && c != ' ')
                          && (r.status == Idle || (retryFailed && r.status == Failed));
            && |batch| <= limit && (id in batch ==> wanted)
            && (wanted && id !in batch ==> |batch| == limit && forall b :: b in batch ==> b < id)
  {
    if id in batch { assert Requeueable(q, retryFailed, locked, id); }
    if Requeueable(q, retryFailed, locked, id) { assert Missing(q.rows[id], retryFailed); }
  }

  /** A new message waits if it is to be embedded, and is idle otherwise. */
  lemma InsertedRow(max: int, q: Queue, id: Id, content: string, queued: bool)
    ensures After(max, q, Insert(id, content, queued)).rows
            == q.rows[id := Row(content, if queued then Queued else Idle, 0, q.now, None, None, None, "")]
  {}

  // ----- which vector a message ends up with -----

  /** The content of a message never changes. */
  lemma {:induction false} ContentIsFinal(max: int, states: seq<Queue>, events: seq<Event>, i: nat, j: nat, id: Id)
    requires IsRun(max, states, events) && i <= j < |states| && id in states[i].rows && id in states[j].rows
    ensures states[j].rows[id].content == states[i].rows[id].content
    decreases j
  {
    if i < j {
      RunKeeps(max, states, events, i);
      Known(max, states, events, i, j - 1);
      RunRow(max, states, events, j - 1, id);
      ContentIsFinal(max, states, events, i, j - 1, id);
    }
  }

  lemma VectorStep(max: int, q: Queue, e: Event, id: Id, v: Vector)
    requires Inv(max, q) && Enabled(max, q, e) && id in After(max, q, e).rows
    requires After(max, q, e).rows[id].vector == Some(v)
    ensures id in q.rows
    ensures q.rows[id].vector == Some(v)
            || (e.Complete? && e.job.id == id && e.v == v && UnderLease(q, e.job)
                && e.job.content == q.rows[id].content)
  {}

  /** Every vector a run stores was computed for the content of that very message and came with
      a completion under its lease. */
  lemma {:induction false} VectorWasComputed(max: int, states: seq<Queue>, events: seq<Event>, n: nat, id: Id,
                                             v: Vector) returns (i: nat)
    requires IsRun(max, states, events) && n < |states| && id in states[n].rows && states[n].rows[id].vector == Some(v)
    requires id in states[0].rows ==> states[0].rows[id].vector.None?
    ensures i < n && events[i].Complete? && events[i].job.id == id && events[i].v == v
    ensures UnderLease(states[i], events[i].job) && events[i].job.content == states[n].rows[id].content
  {
    RunKeeps(max, states, events, n - 1);
    VectorStep(max, states[n-1], events[n-1], id, v);
    if states[n-1].rows[id].vector == Some(v) {
      i := VectorWasComputed(max, states, events, n - 1, id, v);
    } else {
      i := n - 1;
    }
    ContentIsFinal(max, states, events, n - 1, n, id);
  }

  // ----- what the worker's call comes to -----

  /** The delay before attempt `n + 2` is twice the one before attempt `n + 1`. */
  lemma DelayDoubles(n: nat)
    ensures Doubling(0) == 1 && Doubling(n + 1) == Doubling(n) + Doubling(n)
  {}

  /** A timely result is stored, number by number, if and only if it is sound and the job is
      still the worker's; the message is then done. */
  lemma ResultIsStored(p: Policy, q: Queue, job: Job, values: seq<Component>)
    requires job.attempts >= 1 && UnderLease(q, job)
    requires q.rows[job.id].content == job.content && q.rows[job.id].vector.None?
    ensures var r := After(p.max, q, Settlement(p, job, Judgement(p, false, false, Values(values)))).rows[job.id];
            if |values| == p.dimension && forall i :: 0 <= i < |values| ==> values[i].Finite? then
              && r.status == Succeeded && r.error == "" && r.vector.Some? && |r.vector.value| == |values|
              && forall i :: 0 <= i < |values| ==> values[i] == Finite(r.vector.value[i])
            else
              && r.status == Failed && r.vector.None?
              && r.error == if forall i :: 0 <= i < |values| ==> values[i].Finite? then "dimension"
                            else "invalid_vector"
  {
    var verdict := Judgement(p, false, false, Values(values));
    if verdict.Store? {
      CompletionStores(p.max, q, job, verdict.v);
    } else {
      FailureLeaves(p.max, q, job, false, p.retrySeconds * 1000 * Doubling(job.attempts - 1), verdict.code);
    }
  }

  /** A failed call is retried if its error is a temporary one or the time ran out, and an
      attempt is left; the wait doubles with every attempt. */
  lemma FailureIsKept(p: Policy, q: Queue, job: Job, timedOut: bool, e: Embedded)
    requires job.attempts >= 1 && UnderLease(q, job) && (timedOut || !e.Values?)
    ensures var r := After(p.max, q, Settlement(p, job, Judgement(p, false, timedOut, e))).rows[job.id];
            var temporary := timedOut || e.DeadlineExceeded? || (e.Classified? && e.temporary);
            && r.status == (if temporary && job.attempts < p.max then Queued else Failed)
            && r.error == (if timedOut || e.DeadlineExceeded? then "timeout"
                           else if e.Classified? then e.code else "embedding_failed")
            && r.available == q.now + 1000 * p.retrySeconds * Doubling(job.attempts - 1)
            && r.attempts == q.rows[job.id].attempts && r.vector == q.rows[job.id].vector
  {
    var verdict := Judgement(p, false, timedOut, e);
    var delay := p.retrySeconds * 1000 * Doubling(job.attempts - 1);
    FailureLeaves(p.max, q, job, verdict.retry && job.attempts < p.max, delay, verdict.code);
  }

  /** A worker that is stopping gives its job back, whatever the call returned. */
  lemma StoppingGivesBack(p: Policy, q: Queue, job: Job, timedOut: bool, e: Embedded)
    requires job.attempts >= 1 && UnderLease(q, job)
    ensures var r := After(p.max, q, Settlement(p, job, Judgement(p, true, timedOut, e))).rows[job.id];
            r.status == Queued && r.attempts == q.rows[job.id].attempts - 1 && r.available == q.now
            && r.vector == q.rows[job.id].vector
  {
    ReleaseLeaves(p.max, q, job);
  }
}
