/** Sharing a token budget among stored tool results: cheap results stay whole, expensive
    ones are cut to a fair share of what is left. */
module ToolBudget {
  import opened LongestFit
  import opened Options

  /** A stored result: its text, where the text starts, and whether it is a selected view. */
  datatype Ref = Ref(content: string, offset: int, selected: bool)

  datatype Env = Env(
    whole: Ref -> string,                            // the reference, serialized as it is
    piece: (Ref, string, int) -> string,             // with a part of the text and the next offset
    outline: (Ref, string) -> string,                // with complete members only, no offset
    isJson: string -> bool,
    members: string -> Option<(nat, bool)>,          // member count, and whether there is an outer object
    build: (string, bool, nat) -> string,            // the first members, with or without other fields
    tokens: string -> nat)

  predicate Structured(env: Env, ref: Ref) { env.isJson(ref.content) && !ref.selected }

  /** The serialized reference without any of its text. */
  function Stub(env: Env, ref: Ref): string {
    if Structured(env, ref) then env.outline(ref, "") else env.piece(ref, "", ref.offset)
  }

  // ----- cutting one result -----

  predicate PieceFits(env: Env, ref: Ref, allowance: nat, n: nat) {
    n <= |ref.content| && env.tokens(env.piece(ref, ref.content[..n], ref.offset + n)) <= allowance
  }

  predicate MembersFit(env: Env, ref: Ref, allowance: nat, reduced: bool, k: nat) {
    env.tokens(env.outline(ref, env.build(ref.content, reduced, k))) <= allowance
  }

  /** `projectJSONMembers` and what is encoded from it: the longest run of leading members
      that the search finds; large extra fields go first. */
  function ProjectMembers(env: Env, ref: Ref, allowance: nat): string {
    match env.members(ref.content)
    case None => env.outline(ref, "")
    case Some(list) =>
      var reduced := Reduced(env, ref, allowance, list.1);
      var found := Search((k: nat) => MembersFit(env, ref, allowance, reduced, k), 0, list.0, None);
      var count := if found.Some? then found.value else 0;
      if MembersFit(env, ref, allowance, reduced, count)
      then env.outline(ref, env.build(ref.content, reduced, count))
      else env.outline(ref, "")
  }

  /** A text is cut where the search says. */
  function ProjectPiece(env: Env, ref: Ref, allowance: nat): string {
    match Search((n: nat) => PieceFits(env, ref, allowance, n), 0, |ref.content|, None)
    case None => env.piece(ref, "", ref.offset)
    case Some(n) => env.piece(ref, ref.content[..n], ref.offset + n)
  }

  /** `projectArtifact`. */
  function Project(env: Env, ref: Ref, allowance: nat): string {
    if env.tokens(env.whole(ref)) <= allowance then env.whole(ref)
    else if Structured(env, ref) then ProjectMembers(env, ref, allowance)
    else ProjectPiece(env, ref, allowance)
  }

  method ProjectResult(env: Env, ref: Ref, allowance: nat) returns (text: string)
    ensures text == Project(env, ref, allowance)
  {
    text := env.whole(ref);
    if env.tokens(text) <= allowance { return; }
    if Structured(env, ref) {
      text := ProjectList(env, ref, allowance);
    } else {
      text := ProjectText(env, ref, allowance);
    }
  }

  method ProjectText(env: Env, ref: Ref, allowance: nat) returns (text: string)
    ensures text == ProjectPiece(env, ref, allowance)
  {
    var best := SearchLoop((n: nat) => PieceFits(env, ref, allowance, n), 0, |ref.content|);
    match best {
      case None => text := env.piece(ref, "", ref.offset);
      case Some(n) => text := env.piece(ref, ref.content[..n], ref.offset + n);
    }
  }

  method ProjectList(env: Env, ref: Ref, allowance: nat) returns (text: string)
    ensures text == ProjectMembers(env, ref, allowance)
  {
    text := env.outline(ref, "");
    match env.members(ref.content) {
      case None =>
      case Some(list) =>
        var reduced := Reduced(env, ref, allowance, list.1);
        var best := SearchLoop((k: nat) => MembersFit(env, ref, allowance, reduced, k), 0, list.0);
        var count := if best.Some? then best.value else 0;
        if MembersFit(env, ref, allowance, reduced, count) {
          text := env.outline(ref, env.build(ref.content, reduced, count));
        }
    }
  }

  /** A projection stays within any allowance that has room for the stub. */
  lemma ProjectionFits(env: Env, ref: Ref, allowance: nat)
    requires env.tokens(Stub(env, ref)) <= allowance
    ensures env.tokens(Project(env, ref, allowance)) <= allowance
  {}

  /** A result within its allowance is handed over whole. */
  lemma WholeWhenItFits(env: Env, ref: Ref, allowance: nat)
    requires env.tokens(env.whole(ref)) <= allowance
    ensures Project(env, ref, allowance) == env.whole(ref)
  {}

  /** A cut result is the longest beginning of its text that fits, and says where to
      read on, when a longer beginning never costs less. */
  lemma CutIsLongest(env: Env, ref: Ref, allowance: nat) returns (n: nat)
    requires !Structured(env, ref) && env.tokens(env.whole(ref)) > allowance
    requires env.tokens(env.piece(ref, ref.content[..0], ref.offset)) <= allowance
    requires Monotone((k: nat) => PieceFits(env, ref, allowance, k), 0, |ref.content|)
    ensures n <= |ref.content| && env.tokens(env.piece(ref, ref.content[..n], ref.offset + n)) <= allowance
    ensures Project(env, ref, allowance) == env.piece(ref, ref.content[..n], ref.offset + n)
    ensures forall k :: n < k <= |ref.content| ==>
              env.tokens(env.piece(ref, ref.content[..k], ref.offset + k)) > allowance
  {
    var fits := (k: nat) => PieceFits(env, ref, allowance, k);
    SearchIsLongest(fits, 0, |ref.content|, None, 0);
    n := Search(fits, 0, |ref.content|, None).value;
    forall k | n < k <= |ref.content|
      ensures env.tokens(env.piece(ref, ref.content[..k], ref.offset + k)) > allowance
    {
      if PieceFits(env, ref, allowance, k) { SearchIsLongest(fits, 0, |ref.content|, None, k); }
    }
  }

  /** Not even an empty beginning fits: only the stub is left. */
  lemma CutToNothing(env: Env, ref: Ref, allowance: nat)
    requires !Structured(env, ref) && env.tokens(env.whole(ref)) > allowance
    requires forall k :: 0 <= k <= |ref.content| ==>
               env.tokens(env.piece(ref, ref.content[..k], ref.offset + k)) > allowance
    ensures Project(env, ref, allowance) == env.piece(ref, "", ref.offset)
  {
    var fits := (k: nat) => PieceFits(env, ref, allowance, k);
    assert forall k: nat :: !fits(k);
  }

  /** What is tried for a list of members: the first `k` of them, without the large extra fields if
      those alone are too much. */
  lemma MembersTried(env: Env, ref: Ref, allowance: nat, wrapped: bool, reduced: bool, k: nat)
    ensures Reduced(env, ref, allowance, wrapped)
            <==> wrapped && env.tokens(env.outline(ref, env.build(ref.content, false, 0))) > allowance
    ensures MembersFit(env, ref, allowance, reduced, k)
            <==> env.tokens(env.outline(ref, env.build(ref.content, reduced, k))) <= allowance
  {}

  /** The large extra fields of a list go first. */
  function Reduced(env: Env, ref: Ref, allowance: nat, wrapped: bool): bool {
    wrapped && !MembersFit(env, ref, allowance, false, 0)
  }

  /** A list that is cut keeps the most leading members that fit, when more members never
      cost less; if not even none fit, only the stub is left. */
  lemma MembersAreMost(env: Env, ref: Ref, allowance: nat, count: nat, wrapped: bool, reduced: bool) returns (n: nat)
    requires Structured(env, ref) && env.tokens(env.whole(ref)) > allowance
    requires env.members(ref.content) == Some((count, wrapped)) && reduced == Reduced(env, ref, allowance, wrapped)
    requires Monotone((k: nat) => MembersFit(env, ref, allowance, reduced, k), 0, count)
    ensures n <= count
    ensures MembersFit(env, ref, allowance, reduced, 0) ==>
              Project(env, ref, allowance) == env.outline(ref, env.build(ref.content, reduced, n))
    ensures MembersFit(env, ref, allowance, reduced, 0) ==> MembersFit(env, ref, allowance, reduced, n)
    ensures !MembersFit(env, ref, allowance, reduced, 0) ==> Project(env, ref, allowance) == Stub(env, ref)
    ensures forall k: nat :: k <= count && MembersFit(env, ref, allowance, reduced, k) ==> k <= n
  {
    var fits := (k: nat) => MembersFit(env, ref, allowance, reduced, k);
    var found := Search(fits, 0, count, None);
    n := if found.Some? then found.value else 0;
    assert Project(env, ref, allowance) == ProjectMembers(env, ref, allowance);
    forall k: nat | k <= count && MembersFit(env, ref, allowance, reduced, k) ensures k <= n {
      assert fits(k);
      SearchIsLongest(fits, 0, count, None, k);
    }
    assert fits(n) ==> fits(0);
  }

  // ----- sharing the budget -----

  predicate InRange(pending: seq<nat>, n: nat) { forall k :: 0 <= k < |pending| ==> pending[k] < n }

  /** Position of the first pending result of least cost. */
  function Cheapest(costs: seq<nat>, pending: seq<nat>): (p: nat)
    requires pending != [] && InRange(pending, |costs|)
    ensures p < |pending|
    decreases |pending|
  {
    if |pending| == 1 then 0
    else
      var n := |pending| - 1;
      var p := Cheapest(costs, pending[..n]);
      if costs[pending[n]] < costs[pending[p]] then n else p
  }

  lemma {:induction false} CheapestIsFirst(costs: seq<nat>, pending: seq<nat>)
    requires pending != [] && InRange(pending, |costs|)
    ensures var p := Cheapest(costs, pending);
            && (forall k :: 0 <= k < |pending| ==> costs[pending[p]] <= costs[pending[k]])
            && (forall k :: 0 <= k < p ==> costs[pending[p]] < costs[pending[k]])
    decreases |pending|
  {
    if |pending| > 1 {
      var n := |pending| - 1;
      CheapestIsFirst(costs, pending[..n]);
      assert forall k :: 0 <= k < n ==> pending[..n][k] == pending[k];
    }
  }

  function Without(s: seq<nat>, p: nat): (r: seq<nat>)
    requires p < |s|
    ensures |r| == |s| - 1
    ensures forall k :: 0 <= k < |r| ==> r[k] == if k < p then s[k] else s[k+1]
  {
    s[..p] + s[p+1..]
  }

  function Rest(total: nat, spent: nat): nat { if spent <= total then total - spent else 0 }

  /** An equal share, rounded down. */
  function Share(total: nat, n: nat): nat
    requires n > 0
  {
    total / n
  }

  /** One round of the allocation: which result, and its share. */
  datatype Round = Round(index: nat, share: nat)

  /** The rounds of `fitStoredToolResults`: the cheapest pending result gets an equal share
      of what is left. */
  function Rounds(env: Env, refs: seq<Ref>, costs: seq<nat>, pending: seq<nat>, remaining: nat): (r: seq<Round>)
    requires |costs| == |refs| && InRange(pending, |refs|)
    ensures |r| == |pending|
    decreases |pending|
  {
    if pending == [] then []
    else
      var p := Cheapest(costs, pending);
      var i, share := pending[p], Share(remaining, |pending|);
      [Round(i, share)]
      + Rounds(env, refs, costs, Without(pending, p), Rest(remaining, env.tokens(Project(env, refs[i], share))))
  }

  method FindCheapest(costs: seq<nat>, pending: seq<nat>) returns (p: nat)
    requires pending != [] && InRange(pending, |costs|)
    ensures p == Cheapest(costs, pending)
  {
    p := 0;
    for k := 1 to |pending|
      invariant p < k && p == Cheapest(costs, pending[..k])
    {
      assert pending[..k+1][..k] == pending[..k];
      if costs[pending[k]] < costs[pending[p]] { p := k; }
    }
    assert pending[..|pending|] == pending;
  }

  /** No result has two rounds. */
  predicate OneRoundEach(r: seq<Round>) { forall j, k :: 0 <= j < k < |r| ==> r[j].index != r[k].index }

  /** The first `n` rounds have left their projections. */
  ghost predicate Written(env: Env, refs: seq<Ref>, rounds: seq<Round>, n: nat, texts: seq<string>)
    requires n <= |rounds| && |texts| == |refs|
  {
    forall k :: 0 <= k < n ==>
      rounds[k].index < |refs| && texts[rounds[k].index] == Project(env, refs[rounds[k].index], rounds[k].share)
  }

  lemma WriteNext(env: Env, refs: seq<Ref>, rounds: seq<Round>, n: nat, texts: seq<string>)
    requires n < |rounds| && |texts| == |refs| && rounds[n].index < |refs|
    requires OneRoundEach(rounds) && Written(env, refs, rounds, n, texts)
    ensures var text := Project(env, refs[rounds[n].index], rounds[n].share);
            Written(env, refs, rounds, n + 1, texts[rounds[n].index := text])
  {}

  /** The allocation loop: afterwards every result holds its projection. */
  method FitResults(env: Env, refs: seq<Ref>, costs: seq<nat>, budget: nat) returns (texts: seq<string>)
    requires |costs| == |refs|
    ensures |texts| == |refs|
    ensures Written(env, refs, Rounds(env, refs, costs, Indices(|refs|), budget), |refs|, texts)
  {
    var pending: seq<nat> := Indices(|refs|);
    var remaining: nat := budget;
    texts := seq(|refs|, i requires 0 <= i < |refs| => refs[i].content);
    ghost var all := Rounds(env, refs, costs, pending, budget);
    ghost var done: nat := 0;
    forall j, k | 0 <= j < k < |all| ensures all[j].index != all[k].index {
      RoundsByCost(env, refs, costs, pending, budget, j, k);
    }
    assert OneRoundEach(all) && all[0..] == all;
    while pending != []
      invariant |texts| == |refs| && InRange(pending, |refs|) && done + |pending| == |refs|
      invariant all[done..] == Rounds(env, refs, costs, pending, remaining)
      invariant Written(env, refs, all, done, texts)
      decreases |pending|
    {
      var i, text, share;
      i, share, text, pending, remaining := PlayRound(env, refs, costs, pending, remaining);
      assert all[done] == all[done..][0] == Round(i, share);
      assert all[done+1..] == all[done..][1..];
      WriteNext(env, refs, all, done, texts);
      texts := texts[i := text];
      done := done + 1;
    }
  }

  /** One turn of the loop: the cheapest pending result is cut to its share. */
  method PlayRound(env: Env, refs: seq<Ref>, costs: seq<nat>, pending: seq<nat>, remaining: nat)
    returns (i: nat, share: nat, text: string, rest: seq<nat>, left: nat)
    requires |costs| == |refs| && InRange(pending, |refs|) && pending != []
    ensures i < |refs| && text == Project(env, refs[i], share)
    ensures InRange(rest, |refs|) && |rest| == |pending| - 1
    ensures Rounds(env, refs, costs, pending, remaining) == [Round(i, share)] + Rounds(env, refs, costs, rest, left)
  {
    ghost var q, r, l := RoundsUnfold(env, refs, costs, pending, remaining);
    var p := FindCheapest(costs, pending);
    i, share := pending[p], Share(remaining, |pending|);
    text := ProjectResult(env, refs[i], share);
    left := Rest(remaining, env.tokens(text));
    rest := Without(pending, p);
    assert p == q && rest == r && left == l;
  }

  function Indices(n: nat): (s: seq<nat>)
    ensures |s| == n && forall i :: 0 <= i < n ==> s[i] == i
  {
    seq(n, i requires 0 <= i < n => i)
  }

  predicate Increasing(s: seq<nat>) { forall i, j :: 0 <= i < j < |s| ==> s[i] < s[j] }

  /** Cheaper, or as cheap and earlier. */
  predicate Before(costs: seq<nat>, a: nat, b: nat)
    requires a < |costs| && b < |costs|
  {
    costs[a] < costs[b] || (costs[a] == costs[b] && a < b)
  }

  lemma RoundsUnfold(env: Env, refs: seq<Ref>, costs: seq<nat>, pending: seq<nat>, remaining: nat)
    returns (p: nat, rest: seq<nat>, left: nat)
    requires |costs| == |refs| && InRange(pending, |refs|) && pending != []
    ensures p == Cheapest(costs, pending) && rest == Without(pending, p) && InRange(rest, |refs|)
    ensures left == Rest(remaining, env.tokens(Project(env, refs[pending[p]], Share(remaining, |pending|))))
    ensures Rounds(env, refs, costs, pending, remaining)
         == [Round(pending[p], Share(remaining, |pending|))] + Rounds(env, refs, costs, rest, left)
  {
    p := Cheapest(costs, pending);
    rest := Without(pending, p);
    left := Rest(remaining, env.tokens(Project(env, refs[pending[p]], Share(remaining, |pending|))));
  }

  /** What is spent is gone, and nothing is left once more was spent than there was. */
  predicate LeftOver(had: nat, spent: nat, left: nat) {
    if spent < had then left + spent == had else left == 0
  }

  /** Every round gets an equal share, rounded down, of what the rounds before it have left. */
  ghost predicate EqualShares(env: Env, refs: seq<Ref>, r: seq<Round>, left: seq<nat>) {
    |left| == |r| + 1
    && forall j :: 0 <= j < |r| ==>
         && r[j].index < |refs| && r[j].share == left[j] / (|r| - j)
         && LeftOver(left[j], env.tokens(Project(env, refs[r[j].index], r[j].share)), left[j+1])
  }

  lemma SharesBehind(env: Env, refs: seq<Ref>, first: Round, r: seq<Round>, had: nat, left: seq<nat>)
    requires EqualShares(env, refs, r, left) && first.index < |refs| && first.share == had / (|r| + 1)
    requires LeftOver(had, env.tokens(Project(env, refs[first.index], first.share)), left[0])
    ensures EqualShares(env, refs, [first] + r, [had] + left)
  {
    var (all, lefts) := ([first] + r, [had] + left);
    forall j | 0 <= j < |all|
      ensures all[j].index < |refs| && all[j].share == lefts[j] / (|all| - j)
      ensures LeftOver(lefts[j], env.tokens(Project(env, refs[all[j].index], all[j].share)), lefts[j+1])
    {
      if j > 0 {
        assert all[j] == r[j-1] && lefts[j] == left[j-1] && lefts[j+1] == left[j];
        assert |all| - j == |r| - (j - 1);
      }
    }
  }

  lemma {:induction false} RoundShares(env: Env, refs: seq<Ref>, costs: seq<nat>, pending: seq<nat>, remaining: nat)
    returns (left: seq<nat>)
    requires |costs| == |refs| && InRange(pending, |refs|)
    ensures EqualShares(env, refs, Rounds(env, refs, costs, pending, remaining), left) && left[0] == remaining
    decreases |pending|
  {
    left := [remaining];
    if pending != [] {
      var p, rest, after := RoundsUnfold(env, refs, costs, pending, remaining);
      var more := RoundShares(env, refs, costs, rest, after);
      var first := Round(pending[p], Share(remaining, |pending|));
      SharesBehind(env, refs, first, Rounds(env, refs, costs, rest, after), remaining, more);
      left := left + more;
    }
  }

  lemma {:induction false} RoundsInside(env: Env, refs: seq<Ref>, costs: seq<nat>, pending: seq<nat>, remaining: nat,
                                        k: nat)
    returns (m: nat)
    requires |costs| == |refs| && InRange(pending, |refs|) && k < |pending|
    ensures m < |pending| && pending[m] == Rounds(env, refs, costs, pending, remaining)[k].index
    decreases |pending|
  {
    var p, rest, left := RoundsUnfold(env, refs, costs, pending, remaining);
    m := p;
    if k > 0 {
      m := RoundsInside(env, refs, costs, rest, left, k - 1);
      m := if m < p then m else m + 1;
    }
  }

  lemma WithoutIncreasing(s: seq<nat>, p: nat)
    requires p < |s| && Increasing(s)
    ensures Increasing(Without(s, p))
  {}

  lemma CheapestBefore(costs: seq<nat>, pending: seq<nat>, m: nat)
    requires pending != [] && InRange(pending, |costs|) && Increasing(pending) && m < |pending| - 1
    ensures var p := Cheapest(costs, pending);
            var other := Without(pending, p)[m];
            other < |costs| && Before(costs, pending[p], other)
  {
    CheapestIsFirst(costs, pending);
    var p := Cheapest(costs, pending);
    var q := if m < p then m else m + 1;
    assert costs[pending[p]] <= costs[pending[q]];
  }

  /** The results are served by increasing cost, equal costs in their own order; so none has
      two rounds. */
  lemma {:induction false} RoundsByCost(env: Env, refs: seq<Ref>, costs: seq<nat>, pending: seq<nat>,
                                        remaining: nat, j: nat, k: nat)
    requires |costs| == |refs| && InRange(pending, |refs|) && Increasing(pending) && j < k < |pending|
    ensures var r := Rounds(env, refs, costs, pending, remaining);
            r[j].index < |refs| && r[k].index < |refs| && Before(costs, r[j].index, r[k].index)
    decreases |pending|
  {
    var p, rest, left := RoundsUnfold(env, refs, costs, pending, remaining);
    if j > 0 {
      WithoutIncreasing(pending, p);
      RoundsByCost(env, refs, costs, rest, left, j - 1, k - 1);
    } else {
      var m := RoundsInside(env, refs, costs, rest, left, k - 1);
      CheapestBefore(costs, pending, m);
    }
  }

  /** Every pending result gets a round. */
  lemma {:induction false} RoundsCover(env: Env, refs: seq<Ref>, costs: seq<nat>, pending: seq<nat>, remaining: nat,
                                       m: nat)
    returns (k: nat)
    requires |costs| == |refs| && InRange(pending, |refs|) && m < |pending|
    ensures k < |pending| && Rounds(env, refs, costs, pending, remaining)[k].index == pending[m]
    decreases |pending|
  {
    var p, rest, left := RoundsUnfold(env, refs, costs, pending, remaining);
    if m == p {
      k := 0;
    } else {
      k := RoundsCover(env, refs, costs, rest, left, if m < p then m else m - 1);
      k := k + 1;
    }
  }

  lemma MulMonotone(a: nat, b: nat, c: nat)
    ensures a <= b ==> a * c <= b * c
  {
    if a <= b { assert b * c == a * c + (b - a) * c; }
  }

  lemma DivAtLeast(x: nat, a: nat, d: nat)
    requires d > 0 && a * d <= x
    ensures x / d >= a
  {
    var q := x / d;
    DivTimes(x, d);
    assert (q + 1) * d == q * d + d;
    MulMonotone(q + 1, a, d);
  }

  lemma ShareIsPart(total: nat, n: nat)
    requires n > 0
    ensures Share(total, n) <= total
  {
    DivTimes(total, n);
    MulMonotone(1, n, Share(total, n));
  }

  lemma ShareGrows(total: nat, n: nat, spent: nat)
    requires n >= 2 && spent <= Share(total, n)
    ensures spent <= total && Share(total - spent, n - 1) >= Share(total, n)
  {
    var a := Share(total, n);
    DivTimes(total, n);
    TimesLess(a, n);
    DivAtLeast(total - spent, a, n - 1);
  }

  lemma DivTimes(x: nat, d: nat)
    requires d > 0
    ensures x / d * d <= x < x / d * d + d
  {}

  lemma TimesLess(a: nat, n: nat)
    ensures a * n == a * (n - 1) + a
  {}

  function Spent(env: Env, refs: seq<Ref>, rounds: seq<Round>): nat
    requires forall k :: 0 <= k < |rounds| ==> rounds[k].index < |refs|
  {
    if rounds == [] then 0
    else env.tokens(Project(env, refs[rounds[0].index], rounds[0].share)) + Spent(env, refs, rounds[1..])
  }

  /** Every projection fits its share, shares never shrink from round to round, and all
      projections together stay within the budget. */
  ghost predicate Fair(env: Env, refs: seq<Ref>, rounds: seq<Round>, budget: nat) {
    && (forall k :: 0 <= k < |rounds| ==>
          && rounds[k].index < |refs|
          && env.tokens(Project(env, refs[rounds[k].index], rounds[k].share)) <= rounds[k].share)
    && (forall j, k :: 0 <= j <= k < |rounds| ==> rounds[j].share <= rounds[k].share)
    && Spent(env, refs, rounds) <= budget
  }

  lemma FairCons(env: Env, refs: seq<Ref>, first: Round, rounds: seq<Round>, budget: nat, spent: nat)
    requires first.index < |refs| && spent == env.tokens(Project(env, refs[first.index], first.share)) <= first.share
    requires spent <= budget && Fair(env, refs, rounds, budget - spent)
    requires rounds != [] ==> first.share <= rounds[0].share
    ensures Fair(env, refs, [first] + rounds, budget)
  {
    assert ([first] + rounds)[1..] == rounds;
  }

  /** Every stub has room in this share. */
  predicate StubsFit(env: Env, refs: seq<Ref>, pending: seq<nat>, share: nat)
    requires InRange(pending, |refs|)
  {
    forall k :: 0 <= k < |pending| ==> env.tokens(Stub(env, refs[pending[k]])) <= share
  }

  lemma StubsFitWithout(env: Env, refs: seq<Ref>, pending: seq<nat>, p: nat, share: nat, larger: nat)
    requires InRange(pending, |refs|) && p < |pending| && StubsFit(env, refs, pending, share) && share <= larger
    ensures InRange(Without(pending, p), |refs|) && StubsFit(env, refs, Without(pending, p), larger)
    ensures env.tokens(Stub(env, refs[pending[p]])) <= share
  {}

  /** The allocation is fair if every stub fits the first equal share. */
  lemma {:induction false} SharesAreFair(env: Env, refs: seq<Ref>, costs: seq<nat>, pending: seq<nat>, remaining: nat)
    requires |costs| == |refs| && InRange(pending, |refs|)
    requires pending != [] ==> StubsFit(env, refs, pending, Share(remaining, |pending|))
    ensures Fair(env, refs, Rounds(env, refs, costs, pending, remaining), remaining)
    ensures pending != [] ==> Rounds(env, refs, costs, pending, remaining)[0].share == Share(remaining, |pending|)
    decreases |pending|
  {
    if pending != [] {
      var p, rest, left := RoundsUnfold(env, refs, costs, pending, remaining);
      var share := Share(remaining, |pending|);
      var spent := env.tokens(Project(env, refs[pending[p]], share));
      StubsFitWithout(env, refs, pending, p, share, share);
      ProjectionFits(env, refs[pending[p]], share);
      if |pending| >= 2 {
        ShareGrows(remaining, |pending|, spent);
        StubsFitWithout(env, refs, pending, p, share, Share(left, |rest|));
      }
      assert spent <= share && left == remaining - spent by { ShareIsPart(remaining, |pending|); }
      SharesAreFair(env, refs, costs, rest, left);
      FairCons(env, refs, Round(pending[p], share), Rounds(env, refs, costs, rest, left), remaining, spent);
    }
  }

  /** Every result whose serialized form costs at most the first share stays whole. */
  lemma SmallResultsStayWhole(env: Env, refs: seq<Ref>, costs: seq<nat>, budget: nat, k: nat)
    requires |costs| == |refs| > 0 && k < |refs|
    requires forall i :: 0 <= i < |refs| ==> env.tokens(Stub(env, refs[i])) <= Share(budget, |refs|)
    ensures var r := Rounds(env, refs, costs, Indices(|refs|), budget);
            r[k].index < |refs| &&
            (env.tokens(env.whole(refs[r[k].index])) <= Share(budget, |refs|) ==>
               Project(env, refs[r[k].index], r[k].share) == env.whole(refs[r[k].index]))
  {
    SharesAreFair(env, refs, costs, Indices(|refs|), budget);
  }
}
