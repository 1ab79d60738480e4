/** Running summaries of a conversation. Any number of refreshers read the messages, then
    the stored summary, and later write a new summary that covers more messages. */
module SummaryCoverage {
  import opened Options

  type Id = nat

  datatype Message = Message(id: Id, assistant: bool)

  /** What is stored besides the text: how many messages it covers, and the last of them. */
  datatype Summary = Summary(covered: int, last: Option<Id>)

  const TAIL_KEEP := 5
  const MIN_SEGMENT := 5
  const MIN_MESSAGES := 10

  // ----- one refresh -----

  predicate Distinct(log: seq<Message>) {
    forall i, j :: 0 <= i < j < |log| ==> log[i].id != log[j].id
  }

  /** Position of the first message with this id, or the number of messages. */
  function Position(log: seq<Message>, id: Id): (n: nat)
    ensures n <= |log|
    ensures n < |log| ==> log[n].id == id
    ensures forall k :: 0 <= k < n ==> log[k].id != id
  {
    if log == [] then 0
    else if log[0].id == id then 0
    else 1 + Position(log[1..], id)
  }

  /** First message that the existing summary does not cover, as far as it can tell. */
  function StartIndex(messages: seq<Message>, existing: Option<Summary>): (n: nat)
    ensures n <= |messages|
  {
    if existing.None? || existing.value.last.None? then 0
    else
      var k := Position(messages, existing.value.last.value);
      if k < |messages| then k + 1 else 0
  }

  /** The summary that a refresh wants to write, if any. */
  function Refreshed(messages: seq<Message>, existing: Option<Summary>): Option<Summary> {
    var start, end := StartIndex(messages, existing), |messages| - TAIL_KEEP;
    if |messages| < MIN_MESSAGES || end - start < MIN_SEGMENT then None
    else
      var previous := if existing.Some? then existing.value.covered else 0;
      Some(Summary(end - start + previous, Some(messages[end-1].id)))
  }

  method FindStart(messages: seq<Message>, existing: Option<Summary>) returns (start: nat)
    ensures start == StartIndex(messages, existing)
  {
    if existing.None? || existing.value.last.None? { return 0; }
    var id := existing.value.last.value;
    for i := 0 to |messages|
      invariant forall k :: 0 <= k < i ==> messages[k].id != id
    {
      if messages[i].id == id { return i + 1; }
    }
    start := 0;
  }

  /** The range arithmetic of `SummarizeSession`. */
  method Refresh(messages: seq<Message>, existing: Option<Summary>) returns (fresher: Option<Summary>)
    ensures fresher == Refreshed(messages, existing)
  {
    if |messages| < MIN_MESSAGES { return None; }
    var start := FindStart(messages, existing);
    if start >= |messages| { return None; }
    var end := |messages| - TAIL_KEEP;
    if end <= start { return None; }
    var segment := messages[start..end];
    if |segment| < MIN_SEGMENT { return None; }
    var previous := if existing.Some? then existing.value.covered else 0;
    fresher := Some(Summary(|segment| + previous, Some(segment[|segment|-1].id)));
  }

  /** `c` messages are known to be covered: those up to the first one with the id of the last
      covered message, and none when that message is not there. */
  predicate KnownCovered(messages: seq<Message>, existing: Option<Summary>, c: nat) {
    if existing.None? || existing.value.last.None? then c == 0
    else
      var last := existing.value.last.value;
      if exists k :: 0 <= k < |messages| && messages[k].id == last then
        0 < c <= |messages| && messages[c-1].id == last && forall k :: 0 <= k < c - 1 ==> messages[k].id != last
      else c == 0
  }

  /** There is something to summarize exactly when there are ten messages and five of them are
      neither covered nor among the last five; those are added to the count so far. */
  lemma RefreshedWhen(messages: seq<Message>, existing: Option<Summary>, c: nat)
    requires KnownCovered(messages, existing, c)
    ensures var n := |messages|;
            Refreshed(messages, existing)
            == if n >= 10 && n - 5 - c >= 5
               then Some(Summary((n - 5 - c) + (if existing.Some? then existing.value.covered else 0),
                                 Some(messages[n-6].id)))
               else None
  {}

  // ----- exact coverage -----

  /** The summary covers exactly the messages up to its last one. */
  predicate Exact(log: seq<Message>, s: Option<Summary>) {
    s.Some? ==> 0 < s.value.covered <= |log| && s.value.last == Some(log[s.value.covered-1].id)
  }

  lemma PositionOf(log: seq<Message>, k: nat)
    requires Distinct(log) && k < |log|
    ensures Position(log, log[k].id) == k
  {}

  /** The last covered message is among the first `n`. */
  predicate Sees(n: int, existing: Option<Summary>) { existing.Some? ==> existing.value.covered <= n }

  /** A refresh from a prefix of the log: the new summary covers everything but the last
      five messages of the prefix, exactly when the prefix reaches the last message that
      the existing summary covers. */
  lemma RefreshIsExact(log: seq<Message>, n: nat, existing: Option<Summary>)
    requires Distinct(log) && n <= |log| && Exact(log, existing) && Refreshed(log[..n], existing).Some?
    ensures Exact(log, Refreshed(log[..n], existing)) <==> Sees(n, existing)
    ensures Sees(n, existing) ==> Refreshed(log[..n], existing).value.covered == n - TAIL_KEEP
    ensures !Sees(n, existing) ==>
              Refreshed(log[..n], existing).value
              == Summary(n - TAIL_KEEP + existing.value.covered, Some(log[n-TAIL_KEEP-1].id))
  {
    var messages := log[..n];
    if existing.Some? {
      var c := existing.value.covered;
      var k := Position(messages, existing.value.last.value);
      assert k < n ==> log[k].id == messages[k].id;
      if c <= n { PositionOf(messages, c - 1); }
    }
    var s := Refreshed(messages, existing).value;
    assert s.last == Some(log[n-TAIL_KEEP-1].id);
  }

  // ----- refreshers racing each other -----

  datatype Stage = Idle | HasMessages(n: nat) | Ready(n: nat, existing: Option<Summary>)

  type Worker = nat

  datatype State = State(log: seq<Message>, stored: Option<Summary>, workers: map<Worker, Stage>)

  datatype Event =
    | Append(message: Message)
    | ReadMessages(worker: Worker)
    | ReadSummary(worker: Worker, unavailable: bool)
    | Write(worker: Worker)
    | GiveUp(worker: Worker)

  function StageOf(s: State, w: Worker): Stage { if w in s.workers then s.workers[w] else Idle }

  predicate Enabled(s: State, e: Event) {
    match e
    case Append(m) => forall k :: 0 <= k < |s.log| ==> s.log[k].id != m.id
    case ReadMessages(w) => StageOf(s, w).Idle?
    case ReadSummary(w, _) => StageOf(s, w).HasMessages?
    case Write(w) => StageOf(s, w).Ready? && StageOf(s, w).n <= |s.log|
    case GiveUp(_) => true
  }

  function Wanted(s: State, w: Worker): Option<Summary>
    requires StageOf(s, w).Ready? && StageOf(s, w).n <= |s.log|
  {
    Refreshed(s.log[..StageOf(s, w).n], StageOf(s, w).existing)
  }

  /** The guarded insert-or-update: a stored summary only gives way to a larger count. */
  function Upserted(stored: Option<Summary>, s: Option<Summary>): Option<Summary> {
    if s.None? then stored
    else if stored.None? || s.value.covered > stored.value.covered then s
    else stored
  }

  function After(s: State, e: Event): State
    requires Enabled(s, e)
  {
    match e
    case Append(m) => s.(log := s.log + [m])
    case ReadMessages(w) => s.(workers := s.workers[w := HasMessages(|s.log|)])
    case ReadSummary(w, unavailable) =>
      s.(workers := s.workers[w := Ready(StageOf(s, w).n, if unavailable then None else s.stored)])
    case Write(w) => s.(stored := Upserted(s.stored, Wanted(s, w)), workers := s.workers[w := Idle])
    case GiveUp(w) => s.(workers := s.workers[w := Idle])
  }

  /** What holds in every reachable state as long as the stored summary is exact. */
  ghost predicate Inv(s: State) {
    && Distinct(s.log) && Exact(s.log, s.stored)
    && (s.stored.Some? ==> s.stored.value.covered + TAIL_KEEP <= |s.log|)
    && forall w :: w in s.workers ==>
         (s.workers[w].HasMessages? ==> s.workers[w].n <= |s.log|)
         && (s.workers[w].Ready? ==> s.workers[w].n <= |s.log| && Exact(s.log, s.workers[w].existing))
  }

  /** The write would take effect although its summary was read too late for its messages:
      its last covered message is not among them. */
  predicate Overtaken(s: State, e: Event) {
    && e.Write? && StageOf(s, e.worker).Ready? && StageOf(s, e.worker).n <= |s.log|
    && Wanted(s, e.worker).Some? && !Sees(StageOf(s, e.worker).n, StageOf(s, e.worker).existing)
    && (s.stored.None? || Wanted(s, e.worker).value.covered > s.stored.value.covered)
  }

  lemma ExactGrows(log: seq<Message>, m: Message, s: Option<Summary>)
    requires Exact(log, s)
    ensures Exact(log + [m], s)
  {}

  /** A step keeps the coverage exact if and only if it is not an overtaken write. */
  lemma StepExact(s: State, e: Event)
    requires Inv(s) && Enabled(s, e)
    ensures Inv(After(s, e)) <==> !Overtaken(s, e)
  {
    var t := After(s, e);
    if e.Append? {
      ExactGrows(s.log, e.message, s.stored);
      forall w | w in s.workers && s.workers[w].Ready? ensures Exact(t.log, s.workers[w].existing) {
        ExactGrows(s.log, e.message, s.workers[w].existing);
      }
    } else if e.Write? && Wanted(s, e.worker).Some? {
      RefreshIsExact(s.log, StageOf(s, e.worker).n, StageOf(s, e.worker).existing);
    }
  }

  // ----- runs -----

  ghost predicate IsRun(states: seq<State>, events: seq<Event>) {
    && |states| == |events| + 1 && Inv(states[0])
    && forall i :: 0 <= i < |events| ==> Enabled(states[i], events[i]) && states[i+1] == After(states[i], events[i])
  }

  lemma {:induction false} ExactWithoutOvertaking(states: seq<State>, events: seq<Event>, i: nat)
    requires IsRun(states, events) && i < |states|
    requires forall k :: 0 <= k < i ==> !Overtaken(states[k], events[k])
    ensures Inv(states[i])
  {
    if i > 0 {
      ExactWithoutOvertaking(states, events, i - 1);
      StepExact(states[i-1], events[i-1]);
    }
  }

  /** Coverage stays exact over a run if and only if no write along it is overtaken. */
  lemma RunExact(states: seq<State>, events: seq<Event>)
    requires IsRun(states, events)
    ensures (forall i :: 0 <= i < |states| ==> Inv(states[i]))
            <==> (forall i :: 0 <= i < |events| ==> !Overtaken(states[i], events[i]))
  {
    if forall i :: 0 <= i < |states| ==> Inv(states[i]) {
      forall i | 0 <= i < |events| ensures !Overtaken(states[i], events[i]) {
        assert Inv(states[i]) && Inv(states[i+1]);
        StepExact(states[i], events[i]);
      }
    } else if forall i :: 0 <= i < |events| ==> !Overtaken(states[i], events[i]) {
      forall i | 0 <= i < |states| ensures Inv(states[i]) { ExactWithoutOvertaking(states, events, i); }
    }
  }

  /** The stored count never decreases, whatever races: this needs no condition. */
  lemma {:induction false} CountNeverDecreases(states: seq<State>, events: seq<Event>, i: nat, j: nat)
    requires |states| == |events| + 1 && i <= j < |states|
    requires forall k :: 0 <= k < |events| ==>
               Enabled(states[k], events[k]) && states[k+1] == After(states[k], events[k])
    ensures states[i].stored.Some? ==>
              states[j].stored.Some? && states[i].stored.value.covered <= states[j].stored.value.covered
    decreases j
  {
    if i < j { CountNeverDecreases(states, events, i, j - 1); }
  }

  /** In exact states the covered messages are a growing prefix and the last five messages
      are never covered. */
  lemma CoverageGrows(states: seq<State>, events: seq<Event>, i: nat, j: nat)
    requires IsRun(states, events) && i <= j < |states|
    requires forall k :: 0 <= k < |events| ==> !Overtaken(states[k], events[k])
    requires states[i].stored.Some?
    ensures states[j].stored.Some?
    ensures var (a, b, log) := (states[i].stored.value, states[j].stored.value, states[j].log);
            && 0 < a.covered <= b.covered <= |log| - TAIL_KEEP
            && b.last == Some(log[b.covered-1].id)
            && (a.covered == b.covered ==> a.last == b.last)
  {
    RunExact(states, events);
    CountNeverDecreases(states, events, i, j);
    assert Inv(states[i]) && Inv(states[j]);
    LogGrows(states, events, i, j);
  }

  lemma {:induction false} LogGrows(states: seq<State>, events: seq<Event>, i: nat, j: nat)
    requires IsRun(states, events) && i <= j < |states|
    ensures states[i].log <= states[j].log
    decreases j
  {
    if i < j { LogGrows(states, events, i, j - 1); }
  }

  // ----- the race -----

  function Numbered(n: nat): (log: seq<Message>)
    ensures |log| == n && Distinct(log)
  {
    seq(n, i requires 0 <= i < n => Message(i, false))
  }

  /** The events can happen in this order from `s` and lead to `t`. */
  predicate Plays(s: State, events: seq<Event>, t: State)
    decreases |events|
  {
    if events == [] then s == t else Enabled(s, events[0]) && Plays(After(s, events[0]), events[1..], t)
  }

  lemma {:induction false} PlaysFurther(s: State, a: seq<Event>, t: State, b: seq<Event>, u: State)
    requires Plays(s, a, t) && Plays(t, b, u)
    ensures Plays(s, a + b, u)
    decreases |a|
  {
    if a == [] {
      assert a + b == b;
    } else {
      assert (a + b)[1..] == a[1..] + b;
      PlaysFurther(After(s, a[0]), a[1..], t, b, u);
    }
  }

  lemma PlaysOne(s: State, e: Event)
    requires Enabled(s, e)
    ensures Plays(s, [e], After(s, e))
  {
    assert [e][1..] == [];
  }

  /** The user writes `n` messages, numbered from `first` on. */
  function Appends(first: nat, n: nat): seq<Event>
    decreases n
  {
    if n == 0 then [] else [Append(Message(first, false))] + Appends(first + 1, n - 1)
  }

  lemma {:induction false} AppendsPlay(s: State, first: nat, n: nat)
    requires s.log == Numbered(first)
    ensures Plays(s, Appends(first, n), s.(log := Numbered(first + n)))
    decreases n
  {
    if n > 0 {
      var e := Append(Message(first, false));
      assert s.log + [e.message] == Numbered(first + 1);
      AppendsPlay(After(s, e), first + 1, n - 1);
      assert Appends(first, n)[1..] == Appends(first + 1, n - 1);
    }
  }

  const EMPTY := State([], None, map[])

  /** Refresher 1 reads ten messages; refresher 2 then summarizes all sixteen; at last
      refresher 1 reads that summary. Its write is still to come. */
  function Race(): seq<Event> {
    Written() + [Write(2)] + [ReadSummary(1, false)]
  }

  function Written(): seq<Event> {
    Appends(0, 10) + [ReadMessages(1)] + Appends(10, 6) + [ReadMessages(2)] + [ReadSummary(2, false)]
  }

  function Raced(stored: Option<Summary>, first: Stage, second: Stage): State {
    State(Numbered(16), stored, map[1 := first, 2 := second])
  }

  lemma RaceStarts() returns (t: State)
    ensures t.log == Numbered(16) && t.stored == None && t.workers == map[1 := HasMessages(10)]
    ensures Plays(EMPTY, Appends(0, 10) + [ReadMessages(1)] + Appends(10, 6), t)
  {
    var s10 := EMPTY.(log := Numbered(10));
    assert EMPTY.log == Numbered(0);
    AppendsPlay(EMPTY, 0, 10);
    PlaysOne(s10, ReadMessages(1));
    PlaysFurther(EMPTY, Appends(0, 10), s10, [ReadMessages(1)], After(s10, ReadMessages(1)));
    AppendsPlay(After(s10, ReadMessages(1)), 10, 6);
    t := After(s10, ReadMessages(1)).(log := Numbered(16));
    PlaysFurther(EMPTY, Appends(0, 10) + [ReadMessages(1)], After(s10, ReadMessages(1)), Appends(10, 6), t);
  }

  lemma BothRead()
    ensures Plays(EMPTY, Written(), Raced(None, HasMessages(10), Ready(16, None)))
  {
    var t := RaceStarts();
    var a, seen := Appends(0, 10) + [ReadMessages(1)] + Appends(10, 6), Raced(None, HasMessages(10), HasMessages(16));
    assert After(t, ReadMessages(2)) == seen;
    ThenPlays(EMPTY, a, t, ReadMessages(2));
    assert After(seen, ReadSummary(2, false)) == Raced(None, HasMessages(10), Ready(16, None));
    ThenPlays(EMPTY, a + [ReadMessages(2)], seen, ReadSummary(2, false));
  }

  lemma FirstWrite(s: State)
    requires s == Raced(None, HasMessages(10), Ready(16, None))
    ensures Enabled(s, Write(2)) && After(s, Write(2)) == Raced(Some(Summary(11, Some(10))), HasMessages(10), Idle)
  {
    var messages := s.log[..16];
    assert messages == s.log && messages[10].id == 10;
  }

  lemma LastSteps(events: seq<Event>, ready: State, before: State)
    requires ready == Raced(None, HasMessages(10), Ready(16, None)) && Plays(EMPTY, events, ready)
    requires before == Raced(Some(Summary(11, Some(10))), Ready(10, Some(Summary(11, Some(10)))), Idle)
    ensures Plays(EMPTY, events + [Write(2)] + [ReadSummary(1, false)], before)
  {
    var written := Raced(Some(Summary(11, Some(10))), HasMessages(10), Idle);
    FirstWrite(ready);
    ThenPlays(EMPTY, events, ready, Write(2));
    assert After(written, ReadSummary(1, false)) == before;
    ThenPlays(EMPTY, events + [Write(2)], written, ReadSummary(1, false));
  }

  lemma SecondWrite(s: State)
    requires s == Raced(Some(Summary(11, Some(10))), Ready(10, Some(Summary(11, Some(10)))), Idle)
    ensures Enabled(s, Write(1)) && Overtaken(s, Write(1))
    ensures After(s, Write(1)) == Raced(Some(Summary(16, Some(4))), Idle, Idle)
  {
    var messages := s.log[..10];
    assert forall i :: 0 <= i < 10 ==> messages[i].id == i;
    assert Position(messages, 10) == 10;
    assert messages[4].id == 4;
  }

  /** Two refreshers can break exactness, from an empty store on: the first finds nothing to
      continue from, counts its five messages on top of the eleven already covered, and
      moves the last covered message backwards. Up to that write everything is exact. */
  lemma RaceBreaksCoverage() returns (before: State)
    ensures Inv(EMPTY) && Plays(EMPTY, Race(), before) && Inv(before)
    ensures Enabled(before, Write(1)) && Overtaken(before, Write(1))
    ensures var after := After(before, Write(1));
            && Plays(EMPTY, Race() + [Write(1)], after)
            && after.stored == Some(Summary(16, Some(4))) && !Exact(after.log, after.stored)
  {
    before := Raced(Some(Summary(11, Some(10))), Ready(10, Some(Summary(11, Some(10)))), Idle);
    BothRead();
    LastSteps(Written(), Raced(None, HasMessages(10), Ready(16, None)), before);
    RaceEnds(Race(), before);
  }

  lemma RaceEnds(events: seq<Event>, before: State)
    requires before == Raced(Some(Summary(11, Some(10))), Ready(10, Some(Summary(11, Some(10)))), Idle)
    requires Plays(EMPTY, events, before)
    ensures Inv(before) && Enabled(before, Write(1)) && Overtaken(before, Write(1))
    ensures var after := After(before, Write(1));
            && Plays(EMPTY, events + [Write(1)], after)
            && after.stored == Some(Summary(16, Some(4))) && !Exact(after.log, after.stored)
  {
    SecondWrite(before);
    ThenPlays(EMPTY, events, before, Write(1));
    assert Numbered(16)[10].id == 10 && Numbered(16)[15].id == 15;
  }

  lemma ThenPlays(s: State, a: seq<Event>, t: State, e: Event)
    requires Plays(s, a, t) && Enabled(t, e)
    ensures Plays(s, a + [e], After(t, e))
  {
    PlaysOne(t, e);
    PlaysFurther(s, a, t, [e], After(t, e));
  }

  // ----- using the summary -----

  /** Index of the first message that does not come from the assistant. */
  function SkipAssistant(messages: seq<Message>, i: nat): (n: nat)
    requires i <= |messages|
    ensures i <= n <= |messages|
    ensures n < |messages| ==> !messages[n].assistant
    ensures forall k :: i <= k < n ==> messages[k].assistant
    decreases |messages| - i
  {
    if i == |messages| || !messages[i].assistant then i else SkipAssistant(messages, i + 1)
  }

  /** `applySummary`: what remains of the recent messages next to a summary. */
  function Applied(messages: seq<Message>, s: Option<Summary>): seq<Message> {
    if s.None? || s.value.last.None? then messages
    else
      var k := Position(messages, s.value.last.value);
      if k == |messages| then messages else messages[SkipAssistant(messages, k + 1)..]
  }

  method ApplySummary(messages: seq<Message>, s: Option<Summary>) returns (rest: seq<Message>)
    ensures rest == Applied(messages, s)
  {
    if s.None? || s.value.last.None? { return messages; }
    var cut := FindCut(messages, s.value.last.value);
    if cut == |messages| { return messages; }
    var first := cut + 1;
    while first < |messages| && messages[first].assistant
      invariant cut + 1 <= first <= |messages|
      invariant SkipAssistant(messages, first) == SkipAssistant(messages, cut + 1)
    {
      first := first + 1;
    }
    if first >= |messages| { return []; }
    rest := messages[first..];
  }

  method FindCut(messages: seq<Message>, id: Id) returns (cut: nat)
    ensures cut == Position(messages, id)
  {
    cut := 0;
    while cut < |messages|
      invariant cut <= |messages| && forall k :: 0 <= k < cut ==> messages[k].id != id
    {
      if messages[cut].id == id { return; }
      cut := cut + 1;
    }
  }

  lemma AppliedAt(messages: seq<Message>, s: Summary, k: nat)
    requires s.last.Some? && Position(messages, s.last.value) == k < |messages|
    ensures Applied(messages, Some(s)) == messages[SkipAssistant(messages, k + 1)..]
  {}

  lemma AppliedCut(log: seq<Message>, from: nat, to: nat, s: Summary) returns (n: nat)
    requires Distinct(log) && from < s.covered <= to <= |log| && Exact(log, Some(s))
    ensures s.covered <= n <= to && Applied(log[from..to], Some(s)) == log[n..to]
    ensures n < to ==> !log[n].assistant
    ensures forall k :: s.covered <= k < n ==> log[k].assistant
  {
    CutPosition(log, from, to, s.covered);
    AppliedAt(log[from..to], s, s.covered - 1 - from);
    n := SkippedTo(log, from, to, s.covered);
  }

  lemma SkippedTo(log: seq<Message>, from: nat, to: nat, c: nat) returns (n: nat)
    requires from < c <= to <= |log|
    ensures c <= n <= to && log[from..to][SkipAssistant(log[from..to], c - from)..] == log[n..to]
    ensures n < to ==> !log[n].assistant
    ensures forall k :: c <= k < n ==> log[k].assistant
  {
    CutSuffix(log, from, to, c - from);
    n := from + SkipAssistant(log[from..to], c - from);
  }

  lemma SuffixIs(log: seq<Message>, n: nat, to: nat)
    requires n <= to <= |log|
    ensures var rest := log[n..to]; |rest| == to - n && (n < to ==> rest != [] && rest[0] == log[n])
  {}

  lemma AppliedWhole(log: seq<Message>, from: nat, to: nat, s: Summary)
    requires Distinct(log) && from <= to <= |log| && Exact(log, Some(s)) && !(from < s.covered <= to)
    ensures Applied(log[from..to], Some(s)) == log[from..to]
  {
    CutPosition(log, from, to, s.covered);
  }

  /** The recent messages are a stretch of the log, and the summary is exact. The history
      next to it is a stretch that starts with a user message where a cut was made, drops
      only covered messages and leading replies, and repeats covered messages exactly when
      the stretch was read before the last covered message was written. */
  lemma AppliedIsUncovered(log: seq<Message>, from: nat, to: nat, s: Summary)
    requires Distinct(log) && from <= to <= |log| && Exact(log, Some(s))
    ensures var rest := Applied(log[from..to], Some(s));
            && |rest| <= to - from && rest == log[to-|rest|..to]
            && (from < s.covered <= to && rest != [] ==> !rest[0].assistant)
            && (rest != [] && to - |rest| < s.covered <==> from < to < s.covered)
            && (forall k :: from <= k < to - |rest| ==> k < s.covered || log[k].assistant)
  {
    if from < s.covered <= to {
      var n := AppliedCut(log, from, to, s);
      SuffixIs(log, n, to);
    } else {
      AppliedWhole(log, from, to, s);
    }
  }

  /** What is left after a cut, leading replies skipped, is a suffix of the stretch. */
  lemma CutSuffix(log: seq<Message>, from: nat, to: nat, k: nat)
    requires from <= to <= |log| && k <= to - from
    ensures var n := SkipAssistant(log[from..to], k);
            && log[from..to][n..] == log[from+n..to]
            && (n < to - from ==> !log[from+n].assistant)
            && forall j :: from + k <= j < from + n ==> log[j].assistant
  {
    var messages := log[from..to];
    var n := SkipAssistant(messages, k);
    assert forall j :: from <= j < to ==> log[j] == messages[j-from];
  }

  lemma CutPosition(log: seq<Message>, from: nat, to: nat, c: nat)
    requires Distinct(log) && from <= to <= |log| && 0 < c <= |log|
    ensures Position(log[from..to], log[c-1].id) == if from < c <= to then c - 1 - from else to - from
  {
    var messages := log[from..to];
    var k := Position(messages, log[c-1].id);
    assert k < |messages| ==> messages[k] == log[from+k];
    assert from < c <= to ==> messages[c-1-from] == log[c-1];
  }

  /** So a history read too early repeats covered messages: ten recent messages come back in
      full although the summary next to them covers all ten. */
  lemma CoveredMessagesRepeat()
    ensures var (log, s) := (Numbered(16), Summary(11, Some(10)));
            Exact(log, Some(s)) && 10 < s.covered && Applied(log[..10], Some(s)) == log[..10]
  {
    var log, s := Numbered(16), Summary(11, Some(10));
    assert log[10].id == 10;
    assert log[0..10] == log[..10];
    AppliedIsUncovered(log, 0, 10, s);
    CutPosition(log, 0, 10, 11);
  }
}
