/** Conversations with tool calls, and what may be removed from them: completed tool
    groups and completed question-and-answer turns. A provider rejects a history in which
    a call is not followed by exactly its results. */
module ToolHistory {

  datatype Role = System | User | Assistant | Tool

  datatype Call = Call(id: string, name: string)

  datatype Message = Absent | Message(
    role: Role, content: string,
    calls: seq<Call>,   // what an assistant asks for
    answers: string,    // the call a tool result belongs to
    material: string)   // kind of optional context, empty for none

  datatype Rules = Rules(
    guarded: string -> bool,      // tool names whose groups are never summarized
    evidence: string -> bool,     // contents that record approvals or failures
    summaryPrefix: string)

  predicate IsCaller(m: Message) { m.Message? && m.role == Assistant && m.calls != [] }

  predicate IsResult(m: Message) { m.Message? && m.role == Tool }

  predicate IsUser(m: Message) { m.Message? && m.role == User }

  predicate IsSummary(r: Rules, m: Message) { m.Message? && r.summaryPrefix <= m.content }

  function Ids(calls: seq<Call>): set<string> { set k | 0 <= k < |calls| :: calls[k].id }

  // ----- histories a provider accepts -----

  /** The results answer the calls one to one, in any order. */
  predicate Answered(calls: seq<Call>, results: seq<Message>) {
    && |results| == |calls|
    && (forall k :: 0 <= k < |results| ==> IsResult(results[k]) && results[k].answers in Ids(calls))
    && (forall j, k :: 0 <= j < k < |results| ==> results[j].answers != results[k].answers)
  }

  function UnitSize(m: Message): (n: nat)
    ensures n >= 1
  {
    if IsCaller(m) then 1 + |m.calls| else 1
  }

  /** Every call is followed by exactly its results, and there are no other results. */
  predicate WellPaired(ms: seq<Message>) {
    ms == [] ||
    if IsCaller(ms[0]) then
      UnitSize(ms[0]) <= |ms| && Answered(ms[0].calls, ms[1..UnitSize(ms[0])]) && WellPaired(ms[UnitSize(ms[0])..])
    else !IsResult(ms[0]) && WellPaired(ms[1..])
  }

  // ----- completed groups -----

  datatype Group = Group(start: nat, end: nat)

  predicate CallsOk(r: Rules, calls: seq<Call>) {
    && (forall k :: 0 <= k < |calls| ==> calls[k].id != "" && !r.guarded(calls[k].name))
    && (forall j, k :: 0 <= j < k < |calls| ==> calls[j].id != calls[k].id)
  }

  /** An assistant turn and exactly its results, free of guarded tools and evidence. */
  predicate IsToolGroup(r: Rules, ms: seq<Message>, g: Group) {
    && g.start < g.end <= |ms| && IsCaller(ms[g.start]) && CallsOk(r, ms[g.start].calls)
    && Answered(ms[g.start].calls, ms[g.start+1..g.end])
    && forall k :: g.start < k < g.end ==> !r.evidence(ms[k].content)
  }

  /** One assistant turn at `start` with its results up to `end`. */
  ghost predicate Unit(ms: seq<Message>, start: nat, end: nat) {
    && start < end <= |ms| && IsCaller(ms[start]) && end == start + UnitSize(ms[start])
    && forall k :: start < k < end ==> IsResult(ms[k])
  }

  lemma GroupIsUnit(r: Rules, ms: seq<Message>, g: Group)
    requires IsToolGroup(r, ms, g)
    ensures Unit(ms, g.start, g.end)
  {
    assert forall k :: g.start < k < g.end ==> ms[g.start+1..g.end][k-g.start-1] == ms[k];
  }

  lemma {:induction false} IdsCount(calls: seq<Call>)
    requires forall j, k :: 0 <= j < k < |calls| ==> calls[j].id != calls[k].id
    ensures |Ids(calls)| == |calls|
    decreases |calls|
  {
    if calls != [] {
      var n := |calls| - 1;
      IdsCount(calls[..n]);
      assert Ids(calls) == Ids(calls[..n]) + {calls[n].id};
      assert calls[n].id !in Ids(calls[..n]);
    }
  }

  /** Checks one assistant turn: ids present and distinct, no guarded tool. */
  method CheckCalls(r: Rules, calls: seq<Call>) returns (pending: set<string>, valid: bool)
    ensures pending == Ids(calls) && (valid <==> CallsOk(r, calls))
  {
    pending, valid := {}, true;
    for i := 0 to |calls|
      invariant pending == Ids(calls[..i]) && (valid <==> CallsOk(r, calls[..i]))
    {
      ghost var before := calls[..i];
      assert calls[..i+1] == before + [calls[i]];
      if r.guarded(calls[i].name) { valid := false; }
      if calls[i].id == "" || calls[i].id in pending { valid := false; }
      pending := pending + {calls[i].id};
      assert Ids(calls[..i+1]) == Ids(before) + {calls[i].id} by {
        assert forall k :: 0 <= k < i ==> calls[..i+1][k] == before[k];
        assert calls[..i+1][i] == calls[i];
      }
      assert CallsOk(r, calls[..i+1]) <==> CallsOk(r, before) && CallsOk(r, [calls[i]]) && calls[i].id !in Ids(before);
    }
    assert calls[..|calls|] == calls;
  }

  /** Results that answer distinct pending calls, `pending` being what is still open. */
  ghost predicate Consumed(ms: seq<Message>, calls: seq<Call>, from: nat, to: nat, pending: set<string>) {
    && from <= to <= |ms| && pending <= Ids(calls) && |pending| == |Ids(calls)| - (to - from)
    && (forall k :: from <= k < to ==> IsResult(ms[k]) && ms[k].answers in Ids(calls) && ms[k].answers !in pending)
    && (forall j, k :: from <= j < k < to ==> ms[j].answers != ms[k].answers)
    && (forall id :: id in Ids(calls) && id !in pending ==> exists k :: from <= k < to && ms[k].answers == id)
  }

  lemma ConsumeOne(ms: seq<Message>, calls: seq<Call>, from: nat, to: nat, pending: set<string>)
    requires Consumed(ms, calls, from, to, pending) && to < |ms| && IsResult(ms[to]) && ms[to].answers in pending
    ensures Consumed(ms, calls, from, to + 1, pending - {ms[to].answers})
  {}

  /** Reads results as long as they answer open calls. */
  method TakeResults(r: Rules, ms: seq<Message>, calls: seq<Call>, from: nat, open: set<string>)
    returns (end: nat, pending: set<string>, clean: bool)
    requires from <= |ms| && open == Ids(calls)
    ensures Consumed(ms, calls, from, end, pending)
    ensures pending == {} || end == |ms| || !IsResult(ms[end]) || ms[end].answers !in pending
    ensures clean <==> (forall k :: from <= k < end ==> !r.evidence(ms[k].content))
  {
    end, pending, clean := from, open, true;
    while end < |ms| && pending != {} && IsResult(ms[end]) && ms[end].answers in pending
      invariant Consumed(ms, calls, from, end, pending)
      invariant clean <==> (forall k :: from <= k < end ==> !r.evidence(ms[k].content))
      decreases |ms| - end
    {
      if r.evidence(ms[end].content) { clean := false; }
      ConsumeOne(ms, calls, from, end, pending);
      pending := pending - {ms[end].answers};
      end := end + 1;
    }
  }

  /** Follows the results of the turn at `start` as far as they answer its calls. */
  method FollowResults(r: Rules, ms: seq<Message>, start: nat) returns (end: nat, complete: bool)
    requires start < |ms| && IsCaller(ms[start])
    ensures start < end <= |ms| && forall k :: start < k < end ==> IsResult(ms[k])
    ensures complete <==> IsToolGroup(r, ms, Group(start, end))
    ensures forall e: nat :: IsToolGroup(r, ms, Group(start, e)) ==> e == end
  {
    var open, valid := CheckCalls(r, ms[start].calls);
    var pending, clean;
    end, pending, clean := TakeResults(r, ms, ms[start].calls, start + 1, open);
    complete := valid && clean && pending == {};
    GroupEnds(r, ms, start, end, pending);
  }

  lemma GroupEnds(r: Rules, ms: seq<Message>, start: nat, end: nat, pending: set<string>)
    requires start < end <= |ms| && IsCaller(ms[start]) && Consumed(ms, ms[start].calls, start + 1, end, pending)
    requires pending == {} || end == |ms| || !IsResult(ms[end]) || ms[end].answers !in pending
    ensures IsToolGroup(r, ms, Group(start, end)) <==>
              && CallsOk(r, ms[start].calls) && pending == {}
              && forall k :: start + 1 <= k < end ==> !r.evidence(ms[k].content)
    ensures forall e: nat :: IsToolGroup(r, ms, Group(start, e)) ==> e == end
  {
    var calls := ms[start].calls;
    if CallsOk(r, calls) {
      IdsCount(calls);
      forall e: nat | IsToolGroup(r, ms, Group(start, e)) ensures e == end {
        GroupIsUnit(r, ms, Group(start, e));
        AnswersPending(ms, calls, start, end, e, pending);
      }
    }
  }

  lemma AnswersPending(ms: seq<Message>, calls: seq<Call>, start: nat, end: nat, e: nat, pending: set<string>)
    requires start < end <= |ms| && start < e <= |ms| && |Ids(calls)| == |calls| == e - start - 1
    requires Consumed(ms, calls, start + 1, end, pending) && Answered(calls, ms[start+1..e])
    requires pending == {} || end == |ms| || !IsResult(ms[end]) || ms[end].answers !in pending
    ensures e == end
  {
    assert forall k :: start < k < e ==> ms[start+1..e][k-start-1] == ms[k];
  }

  /** Sorted by position and without repetition. */
  ghost predicate Ordered(groups: seq<Group>) {
    forall j, k :: 0 <= j < k < |groups| ==> groups[j].end <= groups[k].start
  }

  /** `completedToolGroups`: all complete groups in order, except the last one, which the
      next inference still needs. */
  method CompletedToolGroups(r: Rules, ms: seq<Message>) returns (groups: seq<Group>)
    ensures Ordered(groups)
    ensures forall g :: g in groups <==> IsToolGroup(r, ms, g) && exists h :: IsToolGroup(r, ms, h) && g.start < h.start
  {
    groups := [];
    var i := 0;
    while i < |ms|
      invariant 0 <= i <= |ms| && Ordered(groups)
      invariant forall g :: g in groups ==> g.end <= i && IsToolGroup(r, ms, g)
      invariant forall g :: IsToolGroup(r, ms, g) && g.start < i ==> g in groups
    {
      if IsCaller(ms[i]) {
        var end, complete := FollowResults(r, ms, i);
        if complete { groups := groups + [Group(i, end)]; }
        assert forall g :: IsToolGroup(r, ms, g) && i <= g.start < end ==> g.start == i && g == Group(i, end);
        i := end;
      } else {
        i := i + 1;
      }
    }
    assert forall g :: g in groups <==> IsToolGroup(r, ms, g);
    if groups != [] {
      groups := DropLast(r, ms, groups);
    }
  }

  method DropLast(r: Rules, ms: seq<Message>, all: seq<Group>) returns (groups: seq<Group>)
    requires all != [] && Ordered(all) && forall g :: g in all <==> IsToolGroup(r, ms, g)
    ensures Ordered(groups)
    ensures forall g :: g in groups <==> IsToolGroup(r, ms, g) && exists h :: IsToolGroup(r, ms, h) && g.start < h.start
  {
    var n := |all| - 1;
    groups := all[..n];
    assert all[n] in all;
    forall g | g in groups ensures IsToolGroup(r, ms, g) && exists h :: IsToolGroup(r, ms, h) && g.start < h.start {
      assert g in all && g.start < g.end <= all[n].start;
    }
    forall g | IsToolGroup(r, ms, g) && g !in groups ensures forall h :: IsToolGroup(r, ms, h) ==> h.start <= g.start {
      var k :| 0 <= k < |all| && all[k] == g;
      assert k < n ==> all[k] == groups[k];
    }
  }

  // ----- completed turns -----

  predicate Asks(r: Rules, m: Message, summariesToo: bool) { IsUser(m) && (summariesToo || !IsSummary(r, m)) }

  /** The latest question: the last user message, summaries counted or not; -1 without one. */
  function LatestUser(r: Rules, ms: seq<Message>, summariesToo: bool): (n: int)
    ensures -1 <= n < |ms|
    ensures n >= 0 ==> Asks(r, ms[n], summariesToo)
    ensures forall k :: n < k < |ms| ==> !Asks(r, ms[k], summariesToo)
  {
    if ms == [] then -1
    else
      var k := |ms| - 1;
      if Asks(r, ms[k], summariesToo) then k else LatestUser(r, ms[..k], summariesToo)
  }

  method FindLatestUser(r: Rules, ms: seq<Message>, summariesToo: bool) returns (n: int)
    ensures n == LatestUser(r, ms, summariesToo)
  {
    n := -1;
    for i := 0 to |ms|
      invariant n == LatestUser(r, ms[..i], summariesToo)
    {
      assert ms[..i+1][..i] == ms[..i];
      if Asks(r, ms[i], summariesToo) { n := i; }
    }
    assert ms[..|ms|] == ms;
  }

  /** A plain question and its plain answer, followed by another question. */
  predicate IsTurn(r: Rules, ms: seq<Message>, i: nat) {
    && i + 2 < |ms| && IsUser(ms[i]) && ms[i+1].Message? && ms[i+1].role == Assistant && ms[i+1].calls == []
    && ms[i].material == "" && !IsSummary(r, ms[i]) && !r.evidence(ms[i+1].content) && IsUser(ms[i+2])
  }

  /** A turn that ends before the latest question. */
  predicate IsOldTurn(r: Rules, ms: seq<Message>, last: int, g: Group) {
    IsTurn(r, ms, g.start) && g.end == g.start + 2 <= last
  }

  /** `completedConversationGroups`: the turns before the latest question, except the last. */
  method CompletedTurns(r: Rules, ms: seq<Message>) returns (turns: seq<Group>)
    ensures Ordered(turns)
    ensures var last := LatestUser(r, ms, false);
            forall g :: g in turns
              <==> IsOldTurn(r, ms, last, g) && exists h :: IsOldTurn(r, ms, last, h) && g.start < h.start
  {
    var last := FindLatestUser(r, ms, false);
    turns := [];
    var i := 0;
    while i + 1 < last
      invariant 0 <= i && Ordered(turns)
      invariant forall g :: g in turns ==> g.end <= i && IsOldTurn(r, ms, last, g)
      invariant forall g :: IsOldTurn(r, ms, last, g) && g.start < i ==> g in turns
    {
      if IsTurn(r, ms, i) {
        turns := turns + [Group(i, i + 2)];
        assert !IsTurn(r, ms, i + 1);
        i := i + 2;
      } else {
        i := i + 1;
      }
    }
    assert forall g :: g in turns <==> IsOldTurn(r, ms, last, g);
    if turns != [] { turns := DropLastTurn(r, ms, last, turns); }
  }

  method DropLastTurn(r: Rules, ms: seq<Message>, last: int, all: seq<Group>) returns (turns: seq<Group>)
    requires all != [] && Ordered(all) && forall g :: g in all <==> IsOldTurn(r, ms, last, g)
    ensures Ordered(turns)
    ensures forall g :: g in turns
              <==> IsOldTurn(r, ms, last, g) && exists h :: IsOldTurn(r, ms, last, h) && g.start < h.start
  {
    var n := |all| - 1;
    turns := all[..n];
    assert all[n] in all;
    forall g | g in turns
      ensures IsOldTurn(r, ms, last, g) && exists h :: IsOldTurn(r, ms, last, h) && g.start < h.start
    {
      assert g in all && g.start < g.end <= all[n].start;
    }
    forall g | IsOldTurn(r, ms, last, g) && g !in turns
      ensures forall h :: IsOldTurn(r, ms, last, h) ==> h.start <= g.start
    {
      var k :| 0 <= k < |all| && all[k] == g;
      assert k < n ==> all[k] == turns[k];
    }
  }

  // ----- removing messages -----

  /** What is left of the messages from position `base` on. */
  function Kept(ms: seq<Message>, removed: set<nat>, base: nat): seq<Message> {
    if ms == [] then []
    else (if base in removed then [] else [ms[0]]) + Kept(ms[1..], removed, base + 1)
  }

  predicate Plain(m: Message) { !IsCaller(m) && !IsResult(m) }

  ghost predicate RemovedGroup(r: Rules, ms: seq<Message>, removed: set<nat>, g: Group) {
    IsToolGroup(r, ms, g) && forall y: nat :: g.start <= y < g.end ==> y in removed
  }

  ghost predicate RemovableAt(r: Rules, ms: seq<Message>, removed: set<nat>, x: nat) {
    x < |ms| && (Plain(ms[x]) || exists g :: RemovedGroup(r, ms, removed, g) && g.start <= x < g.end)
  }

  /** Only plain messages and whole tool groups are removed. */
  ghost predicate Removable(r: Rules, ms: seq<Message>, removed: set<nat>) {
    forall x: nat :: x in removed ==> RemovableAt(r, ms, removed, x)
  }

  /** The calls and results of one turn are removed together or not at all. */
  ghost predicate Respects(ms: seq<Message>, removed: set<nat>, base: nat) {
    ms == [] ||
    (UnitSize(ms[0]) <= |ms|
     && (IsCaller(ms[0]) ==>
           (forall k: nat :: base <= k < base + UnitSize(ms[0]) ==> k in removed)
           || (forall k: nat :: base <= k < base + UnitSize(ms[0]) ==> k !in removed))
     && Respects(ms[UnitSize(ms[0])..], removed, base + UnitSize(ms[0])))
  }

  lemma KeptCons(m: Message, ms: seq<Message>, removed: set<nat>, base: nat)
    ensures Kept([m] + ms, removed, base) == (if base in removed then [] else [m]) + Kept(ms, removed, base + 1)
  {
    assert ([m] + ms)[1..] == ms;
  }

  lemma {:induction false} KeptAppend(a: seq<Message>, b: seq<Message>, removed: set<nat>, base: nat)
    ensures Kept(a + b, removed, base) == Kept(a, removed, base) + Kept(b, removed, base + |a|)
    decreases |a|
  {
    if a == [] {
      assert a + b == b;
    } else {
      var more := a[1..];
      assert a == [a[0]] + more && a + b == [a[0]] + (more + b);
      KeptAppend(more, b, removed, base + 1);
      KeptCons(a[0], more, removed, base);
      KeptCons(a[0], more + b, removed, base);
    }
  }

  lemma KeptSplit(ms: seq<Message>, removed: set<nat>, base: nat, n: nat)
    requires n <= |ms|
    ensures Kept(ms, removed, base) == Kept(ms[..n], removed, base) + Kept(ms[n..], removed, base + n)
  {
    assert ms[..n] + ms[n..] == ms;
    KeptAppend(ms[..n], ms[n..], removed, base);
  }

  lemma {:induction false} KeptAll(ms: seq<Message>, removed: set<nat>, base: nat)
    requires forall k: nat :: base <= k < base + |ms| ==> k !in removed
    ensures Kept(ms, removed, base) == ms
  {
    if ms != [] {
      KeptAll(ms[1..], removed, base + 1);
      assert [ms[0]] + ms[1..] == ms;
    }
  }

  lemma {:induction false} KeptNone(ms: seq<Message>, removed: set<nat>, base: nat)
    requires forall k: nat :: base <= k < base + |ms| ==> k in removed
    ensures Kept(ms, removed, base) == []
  {
    if ms != [] { KeptNone(ms[1..], removed, base + 1); }
  }

  lemma {:induction false} KeptPaired(ms: seq<Message>, removed: set<nat>, base: nat)
    requires WellPaired(ms) && Respects(ms, removed, base)
    ensures WellPaired(Kept(ms, removed, base))
    decreases |ms|
  {
    if ms != [] {
      var n := UnitSize(ms[0]);
      KeptSplit(ms, removed, base, n);
      KeptPaired(ms[n..], removed, base + n);
      var rest := Kept(ms[n..], removed, base + n);
      if IsCaller(ms[0]) {
        if base in removed {
          KeptNone(ms[..n], removed, base);
          assert [] + rest == rest;
        } else {
          KeptAll(ms[..n], removed, base);
          UnitFirst(ms[..n], rest);
        }
      } else {
        assert ms[..1] == [ms[0]] && ms[..1][1..] == [];
        if base !in removed { PlainFirst(ms[0], rest); } else { assert [] + rest == rest; }
      }
    }
  }

  lemma UnitFirst(unit: seq<Message>, rest: seq<Message>)
    requires unit != [] && IsCaller(unit[0]) && |unit| == UnitSize(unit[0]) && Answered(unit[0].calls, unit[1..])
               && WellPaired(rest)
    ensures WellPaired(unit + rest)
  {
    assert (unit + rest)[1..|unit|] == unit[1..] && (unit + rest)[|unit|..] == rest;
  }

  lemma PlainFirst(m: Message, rest: seq<Message>)
    requires Plain(m) && WellPaired(rest)
    ensures WellPaired([m] + rest)
  {
    assert ([m] + rest)[1..] == rest;
  }

  lemma UnitsDisjoint(ms: seq<Message>, a: nat, b: nat, c: nat, d: nat, x: nat)
    requires Unit(ms, a, b) && Unit(ms, c, d) && a <= x < b && c <= x < d
    ensures a == c && b == d
  {}

  lemma UnitTogether(r: Rules, ms: seq<Message>, removed: set<nat>, start: nat, end: nat)
    requires Unit(ms, start, end) && Removable(r, ms, removed)
    ensures (forall k: nat :: start <= k < end ==> k in removed)
            || (forall k: nat :: start <= k < end ==> k !in removed)
  {
    if x: nat :| start <= x < end && x in removed {
      assert RemovableAt(r, ms, removed, x);
      var g :| RemovedGroup(r, ms, removed, g) && g.start <= x < g.end;
      GroupIsUnit(r, ms, g);
      UnitsDisjoint(ms, start, end, g.start, g.end, x);
    }
  }

  lemma UnitAt(ms: seq<Message>, base: nat)
    requires base < |ms| && WellPaired(ms[base..]) && IsCaller(ms[base])
    ensures Unit(ms, base, base + UnitSize(ms[base])) && WellPaired(ms[base+UnitSize(ms[base])..])
  {
    var rest, n := ms[base..], UnitSize(ms[base]);
    assert rest[0] == ms[base] && rest[n..] == ms[base+n..];
    assert forall k :: base < k < base + n ==> rest[1..n][k-base-1] == ms[k];
  }

  /** In a well-paired history removable positions respect the pairing. */
  lemma {:induction false} RemovableRespects(r: Rules, ms: seq<Message>, removed: set<nat>, base: nat)
    requires base <= |ms| && WellPaired(ms[base..]) && Removable(r, ms, removed)
    ensures Respects(ms[base..], removed, base)
    decreases |ms| - base
  {
    if base < |ms| {
      var n := UnitSize(ms[base]);
      if IsCaller(ms[base]) {
        UnitAt(ms, base);
        UnitTogether(r, ms, removed, base, base + n);
      } else {
        assert ms[base..][1..] == ms[base+1..];
      }
      RemovableRespects(r, ms, removed, base + n);
      assert ms[base..][n..] == ms[base+n..];
    }
  }

  /** Removing whole groups and plain messages keeps calls and results paired. */
  lemma RemovalKeepsPairing(r: Rules, ms: seq<Message>, removed: set<nat>)
    requires WellPaired(ms) && Removable(r, ms, removed)
    ensures WellPaired(Kept(ms, removed, 0))
  {
    assert ms[0..] == ms;
    RemovableRespects(r, ms, removed, 0);
    KeptPaired(ms, removed, 0);
  }

  lemma {:induction false} KeptMember(ms: seq<Message>, removed: set<nat>, base: nat, x: nat)
    requires x < |ms| && base + x !in removed
    ensures ms[x] in Kept(ms, removed, base)
  {
    if x > 0 { KeptMember(ms[1..], removed, base + 1, x - 1); }
  }

  method Remove(ms: seq<Message>, removed: set<nat>) returns (kept: seq<Message>)
    ensures kept == Kept(ms, removed, 0)
  {
    kept := [];
    assert ms[0..] == ms;
    for i := 0 to |ms|
      invariant Kept(ms, removed, 0) == kept + Kept(ms[i..], removed, i)
    {
      assert ms[i..][0] == ms[i] && ms[i..][1..] == ms[i+1..];
      if i !in removed { kept := kept + [ms[i]]; }
    }
    assert ms[|ms|..] == [];
  }
}
