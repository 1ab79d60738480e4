/** Making a conversation smaller before a model call: completed groups give way to one
    running summary, and old turns and optional material are dropped while over budget. */
module ContextShrink {
  import opened ToolHistory

  type Cost = seq<Message> -> int

  // ----- the running summary -----

  function Parts(ms: seq<Message>, groups: seq<Group>): seq<Message>
    requires forall g :: g in groups ==> g.start <= g.end <= |ms|
  {
    if groups == [] then []
    else
      var n := |groups| - 1;
      Parts(ms, groups[..n]) + ms[groups[n].start..groups[n].end]
  }

  predicate Within(ms: seq<Message>, groups: seq<Group>) { forall g :: g in groups ==> g.start <= g.end <= |ms| }

  predicate FitsBehind(ms: seq<Message>, fits: seq<Message> -> bool, taken: seq<Group>, g: Group) {
    Within(ms, taken) && g.start <= g.end <= |ms| && fits(Parts(ms, taken) + ms[g.start..g.end])
  }

  /** Groups in order, each taken when the test says so behind those taken before it. */
  function Greedy(groups: seq<Group>, take: (seq<Group>, Group) -> bool): (taken: seq<Group>)
    ensures |taken| <= |groups| && forall g :: g in taken ==> g in groups
  {
    if groups == [] then []
    else
      var n := |groups| - 1;
      var before := Greedy(groups[..n], take);
      if take(before, groups[n]) then before + [groups[n]] else before
  }

  method SelectGroups(ms: seq<Message>, groups: seq<Group>, fits: seq<Message> -> bool) returns (selected: seq<Group>)
    requires Within(ms, groups)
    ensures selected == Greedy(groups, (taken, g) => FitsBehind(ms, fits, taken, g))
    ensures forall g :: g in selected ==> g in groups
    ensures selected != [] ==> fits(Parts(ms, selected))
    ensures selected == [] ==> forall g :: g in groups ==> !fits(ms[g.start..g.end])
  {
    ghost var take := (taken, g) => FitsBehind(ms, fits, taken, g);
    selected := [];
    var parts := [];
    for i := 0 to |groups|
      invariant selected == Greedy(groups[..i], take)
      invariant parts == Parts(ms, selected) && (selected != [] ==> fits(parts))
    {
      var g := groups[i];
      assert g in groups && groups[..i+1][..i] == groups[..i];
      var candidate := parts + ms[g.start..g.end];
      if fits(candidate) {
        assert (selected + [g])[..|selected|] == selected;
        selected, parts := selected + [g], candidate;
      }
    }
    assert groups[..|groups|] == groups;
    if selected == [] { NoneFits(ms, groups, fits); }
  }

  lemma {:induction false} NoneFits(ms: seq<Message>, groups: seq<Group>, fits: seq<Message> -> bool)
    requires Within(ms, groups) && Greedy(groups, (taken, g) => FitsBehind(ms, fits, taken, g)) == []
    ensures forall g :: g in groups ==> !fits(ms[g.start..g.end])
  {
    if groups != [] {
      var n := |groups| - 1;
      NoneFits(ms, groups[..n], fits);
      assert [] + ms[groups[n].start..groups[n].end] == ms[groups[n].start..groups[n].end];
      assert forall g :: g in groups <==> g in groups[..n] || g == groups[n];
    }
  }

  predicate NoRepeats(groups: seq<Group>) { forall i, j :: 0 <= i < j < |groups| ==> groups[i] != groups[j] }

  lemma NotBefore(groups: seq<Group>, n: nat)
    requires NoRepeats(groups) && n < |groups|
    ensures groups[n] !in groups[..n]
  {}

  lemma OneTaken(before: seq<Group>, taken: seq<Group>, g: Group, fit: bool)
    requires g !in before && taken == if fit then before + [g] else before
    ensures before <= taken && (g in taken <==> fit) && (fit ==> |before| < |taken| && taken[|before|] == g)
  {}

  /** A group is taken exactly when the test says so behind those taken before it, and then
      comes right after them: the selection keeps the order. */
  lemma {:induction false} TakenExactlyWhenFits(groups: seq<Group>, take: (seq<Group>, Group) -> bool, i: nat)
    requires NoRepeats(groups) && i < |groups|
    ensures var (taken, before) := (Greedy(groups, take), Greedy(groups[..i], take));
            && before <= taken && (groups[i] in taken <==> take(before, groups[i]))
            && (groups[i] in taken ==> |before| < |taken| && taken[|before|] == groups[i])
    decreases |groups|
  {
    var n := |groups| - 1;
    var front, last := groups[..n], groups[n];
    var init, taken := Greedy(front, take), Greedy(groups, take);
    NotBefore(groups, n);
    OneTaken(init, taken, last, take(init, last));
    if i < n {
      TakenExactlyWhenFits(front, take, i);
      StillTaken(init, taken, last, groups, i);
      assert front[..i] == groups[..i] && front[i] == groups[i];
    }
  }

  lemma StillTaken(init: seq<Group>, taken: seq<Group>, last: Group, groups: seq<Group>, i: nat)
    requires init <= taken && (taken == init || taken == init + [last])
    requires NoRepeats(groups) && i < |groups| - 1 && last == groups[|groups|-1]
    ensures groups[i] in taken <==> groups[i] in init
  {}

  function Span(from: nat, end: nat): (s: set<nat>)
    ensures forall x: nat :: x in s <==> from <= x < end
    decreases end
  {
    if end <= from then {} else Span(from, end - 1) + {end - 1}
  }

  function Positions(groups: seq<Group>): set<nat> {
    if groups == [] then {}
    else
      var n := |groups| - 1;
      Positions(groups[..n]) + Span(groups[n].start, groups[n].end)
  }

  function SummaryMessage(r: Rules, summary: string): Message {
    Message(User, r.summaryPrefix + summary, [], "", "")
  }

  /** The first message is the summary that the new one replaces. */
  predicate StartsWithSummary(r: Rules, ms: seq<Message>, previous: string) {
    previous != "" && ms != [] && IsUser(ms[0]) && ms[0].content == r.summaryPrefix + previous
  }

  function Replaced(r: Rules, ms: seq<Message>, selected: seq<Group>, previous: string): set<nat> {
    Positions(selected) + (if StartsWithSummary(r, ms, previous) then {0} else {})
  }

  function Summarized(r: Rules, ms: seq<Message>, selected: seq<Group>, previous: string,
                      summary: string): seq<Message> {
    [SummaryMessage(r, summary)] + Kept(ms, Replaced(r, ms, selected, previous), 0)
  }

  /** The messages after a successful summary: taken over only when they cost less. */
  method Summarize(r: Rules, cost: Cost, ms: seq<Message>, selected: seq<Group>, previous: string, summary: string)
    returns (next: seq<Message>, smaller: bool)
    ensures smaller <==> cost(Summarized(r, ms, selected, previous, summary)) < cost(ms)
    ensures next == if smaller then Summarized(r, ms, selected, previous, summary) else ms
  {
    var removed: set<nat> := {};
    for i := 0 to |selected|
      invariant removed == Positions(selected[..i])
    {
      assert selected[..i+1][..i] == selected[..i];
      removed := removed + Span(selected[i].start, selected[i].end);
    }
    assert selected[..|selected|] == selected;
    if StartsWithSummary(r, ms, previous) { removed := removed + {0}; }
    assert removed == Replaced(r, ms, selected, previous);
    var kept := Remove(ms, removed);
    next := [SummaryMessage(r, summary)] + kept;
    smaller := cost(next) < cost(ms);
    if !smaller { next := ms; }
  }

  /** `out` are the messages of `ms`, which start at position `base`, that are not removed, in
      their order; `at` are their positions. */
  ghost predicate Rests(ms: seq<Message>, removed: set<nat>, base: nat, out: seq<Message>, at: seq<nat>) {
    && |at| == |out| && (forall i, j :: 0 <= i < j < |at| ==> at[i] < at[j])
    && (forall i :: 0 <= i < |at| ==> base <= at[i] < base + |ms| && out[i] == ms[at[i]-base])
    && (forall k: nat :: base <= k < base + |ms| ==> (k in at <==> k !in removed))
  }

  lemma RestsBehind(ms: seq<Message>, removed: set<nat>, base: nat, out: seq<Message>, at: seq<nat>)
    requires ms != [] && base !in removed && Rests(ms[1..], removed, base + 1, out, at)
    ensures Rests(ms, removed, base, [ms[0]] + out, [base] + at)
  {
    assert forall k :: k in [base] + at <==> k == base || k in at;
  }

  lemma RestsWithout(ms: seq<Message>, removed: set<nat>, base: nat, out: seq<Message>, at: seq<nat>)
    requires ms != [] && base in removed && Rests(ms[1..], removed, base + 1, out, at)
    ensures Rests(ms, removed, base, [] + out, at)
  {
    assert [] + out == out;
  }

  lemma {:induction false} KeptRests(ms: seq<Message>, removed: set<nat>, base: nat) returns (at: seq<nat>)
    ensures Rests(ms, removed, base, Kept(ms, removed, base), at)
    decreases |ms|
  {
    at := [];
    if ms != [] {
      at := KeptRests(ms[1..], removed, base + 1);
      if base in removed {
        RestsWithout(ms, removed, base, Kept(ms[1..], removed, base + 1), at);
      } else {
        RestsBehind(ms, removed, base, Kept(ms[1..], removed, base + 1), at);
        at := [base] + at;
      }
    }
  }

  lemma {:induction false} PositionsAre(groups: seq<Group>, x: nat)
    ensures x in Positions(groups) <==> exists g :: g in groups && g.start <= x < g.end
  {
    if groups != [] {
      var n := |groups| - 1;
      PositionsAre(groups[..n], x);
      assert forall g :: g in groups <==> g in groups[..n] || g == groups[n];
    }
  }

  /** A summary leads the messages that were neither summarized nor are the summary before. */
  lemma SummarizedIs(r: Rules, ms: seq<Message>, selected: seq<Group>, previous: string, summary: string)
    returns (removed: set<nat>, at: seq<nat>, out: seq<Message>)
    ensures Summarized(r, ms, selected, previous, summary)
            == [Message(User, r.summaryPrefix + summary, [], "", "")] + out
    ensures Rests(ms, removed, 0, out, at)
    ensures forall x: nat :: x in removed <==>
              (exists g :: g in selected && g.start <= x < g.end)
              || (x == 0 && previous != "" && ms != [] && ms[0].Message? && ms[0].role == User
                  && ms[0].content == r.summaryPrefix + previous)
  {
    removed := Replaced(r, ms, selected, previous);
    out := Kept(ms, removed, 0);
    at := KeptRests(ms, removed, 0);
    forall x: nat ensures x in Positions(selected) <==> exists g :: g in selected && g.start <= x < g.end {
      PositionsAre(selected, x);
    }
  }

  /** What may be selected: completed tool groups and old turns, the last of each kept back. */
  ghost predicate Selectable(r: Rules, ms: seq<Message>, g: Group) {
    || (IsToolGroup(r, ms, g) && exists h :: IsToolGroup(r, ms, h) && g.start < h.start)
    || IsOldTurn(r, ms, LatestUser(r, ms, false), g)
  }

  lemma {:induction false} InPositions(groups: seq<Group>, x: nat) returns (g: Group)
    requires x in Positions(groups)
    ensures g in groups && g.start <= x < g.end
    ensures forall y: nat :: g.start <= y < g.end ==> y in Positions(groups)
  {
    var n := |groups| - 1;
    g := groups[n];
    if !(g.start <= x < g.end) { g := InPositions(groups[..n], x); }
  }

  lemma ReplacedRemovable(r: Rules, ms: seq<Message>, selected: seq<Group>, previous: string)
    requires forall g :: g in selected ==> Selectable(r, ms, g)
    ensures Removable(r, ms, Replaced(r, ms, selected, previous))
  {
    var removed := Replaced(r, ms, selected, previous);
    forall x: nat | x in removed ensures RemovableAt(r, ms, removed, x) {
      if x in Positions(selected) {
        var g := InPositions(selected, x);
        if IsToolGroup(r, ms, g) { assert RemovedGroup(r, ms, removed, g); }
      }
    }
  }

  /** No tool group starts later. */
  ghost predicate LastGroup(r: Rules, ms: seq<Message>, g: Group) {
    IsToolGroup(r, ms, g) && forall h :: IsToolGroup(r, ms, h) ==> h.start <= g.start
  }

  /** Summarizing any selection of groups keeps calls and results paired, leads with the
      one new summary, and keeps the last complete tool group, if there is one, and the
      latest question. */
  lemma SummaryIsSafe(r: Rules, ms: seq<Message>, selected: seq<Group>, previous: string, summary: string)
    requires WellPaired(ms) && forall g :: g in selected ==> Selectable(r, ms, g)
    ensures var next := Summarized(r, ms, selected, previous, summary);
            && WellPaired(next) && next[0] == SummaryMessage(r, summary)
            && (forall last, x :: LastGroup(r, ms, last) && last.start <= x < last.end && x < |ms| ==> ms[x] in next)
            && (LatestUser(r, ms, false) >= 0 ==> ms[LatestUser(r, ms, false)] in next)
  {
    SummaryStaysPaired(r, ms, selected, previous, summary);
    forall last, x | LastGroup(r, ms, last) && last.start <= x < last.end && x < |ms|
      ensures ms[x] in Summarized(r, ms, selected, previous, summary)
    {
      LastGroupStays(r, ms, selected, previous, last, x);
      SurvivorStays(r, ms, selected, previous, summary, x);
    }
    if LatestUser(r, ms, false) >= 0 {
      QuestionStays(r, ms, selected, previous);
      SurvivorStays(r, ms, selected, previous, summary, LatestUser(r, ms, false));
    }
  }

  lemma SummaryStaysPaired(r: Rules, ms: seq<Message>, selected: seq<Group>, previous: string, summary: string)
    requires WellPaired(ms) && forall g :: g in selected ==> Selectable(r, ms, g)
    ensures WellPaired(Summarized(r, ms, selected, previous, summary))
  {
    var removed := Replaced(r, ms, selected, previous);
    ReplacedRemovable(r, ms, selected, previous);
    RemovalKeepsPairing(r, ms, removed);
    PlainFirst(SummaryMessage(r, summary), Kept(ms, removed, 0));
  }

  lemma SurvivorStays(r: Rules, ms: seq<Message>, selected: seq<Group>, previous: string, summary: string, x: nat)
    requires x < |ms| && x !in Replaced(r, ms, selected, previous)
    ensures ms[x] in Summarized(r, ms, selected, previous, summary)
  {
    KeptMember(ms, Replaced(r, ms, selected, previous), 0, x);
  }

  lemma LastGroupStays(r: Rules, ms: seq<Message>, selected: seq<Group>, previous: string, last: Group, x: nat)
    requires forall g :: g in selected ==> Selectable(r, ms, g)
    requires LastGroup(r, ms, last) && last.start <= x < last.end
    ensures x !in Replaced(r, ms, selected, previous)
  {
    GroupIsUnit(r, ms, last);
    if x in Positions(selected) {
      var g := InPositions(selected, x);
      if IsToolGroup(r, ms, g) {
        GroupIsUnit(r, ms, g);
        UnitsDisjoint(ms, last.start, last.end, g.start, g.end, x);
      }
    }
  }

  lemma GroupWithoutQuestion(r: Rules, ms: seq<Message>, g: Group)
    requires Selectable(r, ms, g) && LatestUser(r, ms, false) >= 0
    ensures !(g.start <= LatestUser(r, ms, false) < g.end)
  {
    if IsToolGroup(r, ms, g) { GroupIsUnit(r, ms, g); }
  }

  lemma QuestionStays(r: Rules, ms: seq<Message>, selected: seq<Group>, previous: string)
    requires LatestUser(r, ms, false) >= 0 && forall g :: g in selected ==> Selectable(r, ms, g)
    ensures LatestUser(r, ms, false) !in Replaced(r, ms, selected, previous)
  {
    var q := LatestUser(r, ms, false);
    if q in Positions(selected) {
      var g := InPositions(selected, q);
      GroupWithoutQuestion(r, ms, g);
    }
  }

  // ----- dropping old turns -----

  /** A turn that may be dropped outright: neither side records evidence. */
  predicate Droppable(r: Rules, ms: seq<Message>, i: nat) {
    IsTurn(r, ms, i) && !r.evidence(ms[i].content) && i + 2 <= LatestUser(r, ms, true)
  }

  /** A droppable turn is a question that is no summary and no optional context, with an answer
      that calls no tool, both without evidence and followed by another question. */
  lemma DroppableIs(r: Rules, ms: seq<Message>, i: nat)
    ensures Droppable(r, ms, i)
            <==> i + 2 < |ms| && ms[i].Message? && ms[i+1].Message? && ms[i+2].Message?
                 && ms[i].role == User && ms[i+1].role == Assistant && ms[i+2].role == User
                 && ms[i].material == "" && !(r.summaryPrefix <= ms[i].content) && ms[i+1].calls == []
                 && !r.evidence(ms[i].content) && !r.evidence(ms[i+1].content)
  {}

  function Without(ms: seq<Message>, from: nat, to: nat): seq<Message>
    requires from <= to <= |ms|
  {
    ms[..from] + ms[to..]
  }

  /** The oldest droppable turn of `a` is missing in `b`, and nothing else. */
  ghost predicate OldestTurnGone(r: Rules, a: seq<Message>, b: seq<Message>) {
    exists i: nat ::
      Droppable(r, a, i) && b == Without(a, i, i + 2) && forall k: nat :: Droppable(r, a, k) ==> i <= k
  }

  /** `dropOldConversation`: drops the oldest droppable turn. */
  method DropOldTurn(r: Rules, ms: seq<Message>) returns (next: seq<Message>, dropped: bool)
    ensures dropped <==> exists i: nat :: Droppable(r, ms, i)
    ensures dropped ==> OldestTurnGone(r, ms, next)
    ensures !dropped ==> next == ms
  {
    var last := FindLatestUser(r, ms, true);
    var i := 0;
    while i + 1 < last
      invariant 0 <= i && forall k: nat :: k < i ==> !Droppable(r, ms, k)
    {
      if IsTurn(r, ms, i) && !r.evidence(ms[i].content) && i + 2 <= last {
        assert Droppable(r, ms, i);
        next, dropped := ms[..i] + ms[i+2..], true;
        assert next == Without(ms, i, i + 2);
        assert OldestTurnGone(r, ms, next);
        return;
      }
      i := i + 1;
    }
    return ms, false;
  }

  /** Messages that no shrinking may remove. */
  predicate Fact(r: Rules, m: Message) {
    || m.Absent? || IsCaller(m) || IsResult(m) || m.role == System || r.evidence(m.content)
    || (IsUser(m) && IsSummary(r, m) && m.material == "")
  }

  function Facts(r: Rules, ms: seq<Message>): seq<Message> {
    if ms == [] then [] else (if Fact(r, ms[0]) then [ms[0]] else []) + Facts(r, ms[1..])
  }

  lemma {:induction false} FactsConcat(r: Rules, a: seq<Message>, b: seq<Message>)
    ensures Facts(r, a + b) == Facts(r, a) + Facts(r, b)
  {
    if a == [] {
      assert a + b == b;
    } else {
      assert (a + b)[0] == a[0] && (a + b)[1..] == a[1..] + b;
      FactsConcat(r, a[1..], b);
    }
  }

  lemma {:induction false} NoFacts(r: Rules, ms: seq<Message>)
    requires forall m :: m in ms ==> !Fact(r, m)
    ensures Facts(r, ms) == []
  {
    if ms != [] { NoFacts(r, ms[1..]); }
  }

  lemma {:induction false} KeptWithout(ms: seq<Message>, from: nat, to: nat, base: nat)
    requires from <= to <= |ms|
    ensures Kept(ms, Span(base + from, base + to), base) == Without(ms, from, to)
  {
    var removed := Span(base + from, base + to);
    KeptSplit(ms, removed, base, to);
    KeptSplit(ms[..to], removed, base, from);
    assert ms[..to][..from] == ms[..from];
    KeptAll(ms[..from], removed, base);
    KeptNone(ms[..to][from..], removed, base + from);
    KeptAll(ms[to..], removed, base + to);
    assert ms[..from] + [] == ms[..from];
  }

  /** Dropping a stretch of messages that are no facts keeps the pairing and the facts. */
  lemma DropKeeps(r: Rules, ms: seq<Message>, from: nat, to: nat)
    requires from <= to <= |ms| && forall k :: from <= k < to ==> !Fact(r, ms[k])
    ensures Facts(r, Without(ms, from, to)) == Facts(r, ms)
    ensures WellPaired(ms) ==> WellPaired(Without(ms, from, to))
  {
    FactsWithout(r, ms, from, to);
    if WellPaired(ms) {
      var removed := Span(from, to);
      assert forall x: nat :: x in removed ==> RemovableAt(r, ms, removed, x);
      RemovalKeepsPairing(r, ms, removed);
      KeptWithout(ms, from, to, 0);
    }
  }

  lemma FactsWithout(r: Rules, ms: seq<Message>, from: nat, to: nat)
    requires from <= to <= |ms| && forall k :: from <= k < to ==> !Fact(r, ms[k])
    ensures Facts(r, Without(ms, from, to)) == Facts(r, ms)
  {
    var middle := ms[from..to];
    assert ms == ms[..from] + (middle + ms[to..]);
    FactsConcat(r, ms[..from], middle + ms[to..]);
    FactsConcat(r, middle, ms[to..]);
    FactsConcat(r, ms[..from], ms[to..]);
    NoFacts(r, middle);
    assert [] + Facts(r, ms[to..]) == Facts(r, ms[to..]);
  }

  lemma TurnHasNoFacts(r: Rules, ms: seq<Message>, i: nat)
    requires Droppable(r, ms, i)
    ensures !Fact(r, ms[i]) && !Fact(r, ms[i+1])
  {}

  /** Optional context is carried by user messages only. */
  predicate MaterialIsPlain(ms: seq<Message>) {
    forall m :: m in ms && m.Message? && m.material != "" ==> m.role == User
  }

  lemma PlainMaterialStays(ms: seq<Message>, from: nat, to: nat)
    requires from <= to <= |ms| && MaterialIsPlain(ms)
    ensures MaterialIsPlain(Without(ms, from, to))
  {}

  /** What shrinking preserves. */
  ghost predicate Preserves(r: Rules, a: seq<Message>, b: seq<Message>) {
    Facts(r, b) == Facts(r, a) && (WellPaired(a) ==> WellPaired(b)) && (MaterialIsPlain(a) ==> MaterialIsPlain(b))
  }

  /** The latest user message and everything after it stay as they are. */
  ghost predicate KeepsEnd(r: Rules, a: seq<Message>, b: seq<Message>) {
    var (m, n) := (LatestUser(r, a, true), LatestUser(r, b, true));
    (m < 0 <==> n < 0) && (m >= 0 ==> a[m..] == b[n..])
  }

  lemma ShiftedEnd(ms: seq<Message>, from: nat, to: nat, m: nat)
    requires from <= to <= m < |ms|
    ensures var (next, n) := (Without(ms, from, to), m - (to - from));
            && n < |next| && next[n..] == ms[m..]
            && forall k :: n <= k < |next| ==> next[k] == ms[k+(to-from)]
  {
    var next := Without(ms, from, to);
    assert forall k :: from <= k < |next| ==> next[k] == ms[k+(to-from)];
  }

  lemma DropKeepsEnd(r: Rules, ms: seq<Message>, from: nat, to: nat)
    requires from <= to <= |ms| && to <= LatestUser(r, ms, true)
    ensures KeepsEnd(r, ms, Without(ms, from, to))
  {
    var m, next := LatestUser(r, ms, true), Without(ms, from, to);
    var n := m - (to - from);
    ShiftedEnd(ms, from, to, m);
    assert next[n] == ms[m];
    assert LatestUser(r, next, true) == n;
  }

  lemma DropTurnStep(r: Rules, ms: seq<Message>, now: seq<Message>, i: nat)
    requires Preserves(r, ms, now) && KeepsEnd(r, ms, now) && Droppable(r, now, i)
    ensures Preserves(r, ms, Without(now, i, i + 2)) && KeepsEnd(r, ms, Without(now, i, i + 2))
    ensures |Without(now, i, i + 2)| < |now|
  {
    TurnHasNoFacts(r, now, i);
    DropKeeps(r, now, i, i + 2);
    if MaterialIsPlain(now) { PlainMaterialStays(now, i, i + 2); }
    DropKeepsEnd(r, now, i, i + 2);
  }

  lemma TurnGoes(r: Rules, ms: seq<Message>, now: seq<Message>, next: seq<Message>)
    requires Preserves(r, ms, now) && KeepsEnd(r, ms, now) && OldestTurnGone(r, now, next)
    ensures Preserves(r, ms, next) && KeepsEnd(r, ms, next) && |next| < |now|
  {
    var i: nat :| Droppable(r, now, i) && next == Without(now, i, i + 2);
    DropTurnStep(r, ms, now, i);
  }

  /** The histories between the first and the last one, each without one more turn. A turn
      goes only while the history is over the soft limit and, once one has gone, over the
      target too. */
  ghost predicate TurnByTurn(r: Rules, cost: Cost, stages: seq<seq<Message>>, soft: int, target: int) {
    forall k :: 0 <= k < |stages| - 1 ==>
      && OldestTurnGone(r, stages[k], stages[k+1])
      && cost(stages[k]) > soft && (k > 0 ==> cost(stages[k]) > target)
  }

  /** The loop of `BeforeModelRewriteState`: drops the oldest turns while over the soft limit. */
  method DropTurns(r: Rules, cost: Cost, ms: seq<Message>, soft: int, target: int)
    returns (next: seq<Message>, ghost stages: seq<seq<Message>>)
    ensures Preserves(r, ms, next) && KeepsEnd(r, ms, next)
    ensures |stages| > 0 && stages[0] == ms && stages[|stages|-1] == next
    ensures TurnByTurn(r, cost, stages, soft, target)
    ensures cost(next) <= soft || (next != ms && cost(next) <= target) || forall i: nat :: !Droppable(r, next, i)
    ensures cost(ms) <= soft ==> next == ms
  {
    next, stages := ms, [ms];
    while cost(next) > soft
      invariant Preserves(r, ms, next) && KeepsEnd(r, ms, next)
      invariant |stages| > 0 && stages[0] == ms && stages[|stages|-1] == next
      invariant TurnByTurn(r, cost, stages, soft, target) && (|stages| > 1 ==> cost(next) > target)
      invariant cost(ms) <= soft ==> next == ms
      invariant |stages| > 1 ==> |next| < |ms|
      decreases |next|
    {
      var shorter, dropped := DropOldTurn(r, next);
      if !dropped { return; }
      TurnGoes(r, ms, next, shorter);
      NextStage(r, cost, stages, shorter, soft, target);
      next, stages := shorter, stages + [shorter];
      if cost(next) <= target { return; }
    }
  }

  lemma NextStage(r: Rules, cost: Cost, stages: seq<seq<Message>>, next: seq<Message>, soft: int, target: int)
    requires |stages| > 0 && TurnByTurn(r, cost, stages, soft, target)
    requires OldestTurnGone(r, stages[|stages|-1], next)
    requires cost(stages[|stages|-1]) > soft && (|stages| > 1 ==> cost(stages[|stages|-1]) > target)
    ensures TurnByTurn(r, cost, stages + [next], soft, target)
  {
    var all := stages + [next];
    forall k | 0 <= k < |all| - 1
      ensures OldestTurnGone(r, all[k], all[k+1]) && cost(all[k]) > soft && (k > 0 ==> cost(all[k]) > target)
    {
      if k < |stages| - 1 { assert all[k] == stages[k] && all[k+1] == stages[k+1]; }
    }
  }

  predicate Optional(r: Rules, kind: string, m: Message) {
    m.Message? && m.material == kind && !r.evidence(m.content)
  }

  lemma DropMaterialStep(r: Rules, ms: seq<Message>, now: seq<Message>, i: nat)
    requires i < |now| && MaterialIsPlain(ms) && Preserves(r, ms, now)
    requires now[i].Message? && now[i].material != "" && !r.evidence(now[i].content)
    ensures Preserves(r, ms, Without(now, i, i + 1))
  {
    assert now[i] in now;
    DropKeeps(r, now, i, i + 1);
    PlainMaterialStays(now, i, i + 1);
  }

  /** Each history lacks one message more than the one before: the newest of that kind, and
      only while the history is over the limit. */
  ghost predicate PieceByPiece(r: Rules, cost: Cost, stages: seq<seq<Message>>, hard: int, kind: string) {
    forall k :: 0 <= k < |stages| - 1 ==> cost(stages[k]) > hard && NewestGone(r, kind, stages[k], stages[k+1])
  }

  ghost predicate NewestGone(r: Rules, kind: string, a: seq<Message>, b: seq<Message>) {
    exists i: nat ::
      i < |a| && Optional(r, kind, a[i]) && b == Without(a, i, i + 1)
      && forall k :: i < k < |a| ==> !Optional(r, kind, a[k])
  }

  lemma NextPiece(r: Rules, cost: Cost, stages: seq<seq<Message>>, next: seq<Message>, hard: int, kind: string)
    requires |stages| > 0 && PieceByPiece(r, cost, stages, hard, kind)
    requires cost(stages[|stages|-1]) > hard && NewestGone(r, kind, stages[|stages|-1], next)
    ensures PieceByPiece(r, cost, stages + [next], hard, kind)
  {
    var all := stages + [next];
    forall k | 0 <= k < |all| - 1 ensures cost(all[k]) > hard && NewestGone(r, kind, all[k], all[k+1]) {
      if k < |stages| - 1 { assert all[k] == stages[k] && all[k+1] == stages[k+1]; }
    }
  }

  /** One kind of optional context, newest first, while over the hard limit. */
  method DropMaterial(r: Rules, cost: Cost, ms: seq<Message>, hard: int, kind: string)
    returns (next: seq<Message>, ghost stages: seq<seq<Message>>)
    requires kind != "" && MaterialIsPlain(ms)
    ensures Preserves(r, ms, next)
    ensures cost(next) <= hard || forall m :: m in next ==> !Optional(r, kind, m)
    ensures cost(ms) <= hard ==> next == ms
    ensures forall m :: m in next ==> m in ms
    ensures |stages| > 0 && stages[0] == ms && stages[|stages|-1] == next
    ensures PieceByPiece(r, cost, stages, hard, kind)
  {
    next, stages := ms, [ms];
    var i := |next|;
    while i > 0 && cost(next) > hard
      invariant 0 <= i <= |next| && Preserves(r, ms, next)
      invariant cost(ms) <= hard ==> next == ms
      invariant forall k :: i <= k < |next| ==> !Optional(r, kind, next[k])
      invariant forall m :: m in next ==> m in ms
      invariant |stages| > 0 && stages[0] == ms && stages[|stages|-1] == next
      invariant PieceByPiece(r, cost, stages, hard, kind)
      decreases i
    {
      i := i - 1;
      if Optional(r, kind, next[i]) {
        assert next[i] in next;
        DropMaterialStep(r, ms, next, i);
        ghost var before := next;
        next := next[..i] + next[i+1..];
        assert next == Without(before, i, i + 1);
        assert forall k :: i <= k < |next| ==> next[k] == before[k+1];
        assert NewestGone(r, kind, before, next);
        NextPiece(r, cost, stages, next, hard, kind);
        stages := stages + [next];
      }
    }
  }

  /** All three kinds in their order: recalled passages go first, memories last. */
  method DropOptional(r: Rules, cost: Cost, ms: seq<Message>, hard: int)
    returns (next: seq<Message>, ghost recalled: seq<seq<Message>>, ghost fragments: seq<seq<Message>>,
             ghost memories: seq<seq<Message>>)
    requires MaterialIsPlain(ms)
    ensures Preserves(r, ms, next)
    ensures cost(next) <= hard || forall m :: m in next ==>
              !Optional(r, "recall", m) && !Optional(r, "history_fragment", m) && !Optional(r, "memory", m)
    ensures cost(ms) <= hard ==> next == ms
    ensures PieceByPiece(r, cost, recalled, hard, "recall")
    ensures PieceByPiece(r, cost, fragments, hard, "history_fragment")
    ensures PieceByPiece(r, cost, memories, hard, "memory")
    ensures |recalled| > 0 && |fragments| > 0 && |memories| > 0 && recalled[0] == ms
            && fragments[0] == recalled[|recalled|-1] && memories[0] == fragments[|fragments|-1]
            && memories[|memories|-1] == next
  {
    next, recalled := DropMaterial(r, cost, ms, hard, "recall");
    next, fragments := DropMaterial(r, cost, next, hard, "history_fragment");
    next, memories := DropMaterial(r, cost, next, hard, "memory");
  }
}
