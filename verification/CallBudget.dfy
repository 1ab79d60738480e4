/** Token and call limits of model calls: the split of a context window into input, margin
    and output, the one shrunken retry after a rejected request, and the call counter that
    a task shares between calls, retries and resumed runs. */
module CallBudget {
  import opened Options

  datatype Result<T> = Ok(value: T) | Err(error: Error)

  datatype Error = BadConfig | OverBudget | OverCeiling | Rejected | Exhausted | BadOutput | Failed | Cancelled

  datatype Policy = Policy(
    quickSoft: real, quickTarget: real, deepSoft: real, deepTarget: real,
    marginRatio: real, marginFloor: int, outputLimit: int)

  datatype Budget = Budget(limit: int, output: int, margin: int, hard: int, soft: int, target: int)

  const MINIMUM_OUTPUT := 512

  function Min(a: int, b: int): int { if a <= b then a else b }

  function Max(a: int, b: int): int { if a <= b then b else a }

  // ----- splitting the window -----

  predicate PolicyOk(p: Policy) {
    && 0.0 < p.quickTarget < p.quickSoft < 1.0 && 0.0 < p.deepTarget < p.deepSoft < 1.0
    && 0.0 < p.marginRatio < 1.0 && p.marginFloor > 0 && p.outputLimit > 0
  }

  function Margin(p: Policy, window: int): int { Max((window as real * p.marginRatio).Floor, p.marginFloor) }

  function ResolveBudget(p: Policy, window: int, output: int, quick: bool): Result<Budget> {
    if !PolicyOk(p) || window <= 0 || output <= 0 then Err(BadConfig)
    else
      var margin := Margin(p, window);
      var hard := window - output - margin;
      if hard <= 0 then Err(OverBudget)
      else
        var (soft, target) := if quick then (p.quickSoft, p.quickTarget) else (p.deepSoft, p.deepTarget);
        Ok(Budget(window, output, margin, hard, (hard as real * soft).Floor, (hard as real * target).Floor))
  }

  function Portion(x: real, l: real, h: real): real
    requires h != 0.0
  {
    x * l / h
  }

  /** A water mark moved along with its hard limit. */
  function Scaled(mark: int, limit: int, hard: int): int
    requires hard != 0
  {
    Portion(mark as real, limit as real, hard as real).Floor
  }

  function WithInputLimit(b: Budget, limit: int): Budget {
    if 0 < limit < b.hard then
      b.(soft := Scaled(b.soft, limit, b.hard), target := Scaled(b.target, limit, b.hard), hard := limit)
    else b
  }

  /** Water marks in order, and input, margin and output within the window. */
  predicate BudgetOk(b: Budget) {
    0 <= b.target <= b.soft <= b.hard && 0 < b.hard && 0 < b.output && 0 < b.margin
      && b.hard + b.margin + b.output <= b.limit
  }

  lemma ScaleMonotone(x: real, y: real, factor: real)
    requires factor >= 0.0
    ensures x <= y ==> x * factor <= y * factor
  {}

  /** A resolved budget splits the whole window, also after an input limit is applied. */
  lemma BudgetsAreOrdered(p: Policy, window: int, output: int, quick: bool, inputLimit: int)
    requires ResolveBudget(p, window, output, quick).Ok?
    ensures var b := ResolveBudget(p, window, output, quick).value;
            && BudgetOk(b) && b.hard + b.margin + b.output == window
            && BudgetOk(WithInputLimit(b, inputLimit))
            && (inputLimit > 0 ==> WithInputLimit(b, inputLimit).hard == Min(b.hard, inputLimit))
  {
    ResolvedInOrder(p, window, output, quick);
    LimitKeepsOrder(ResolveBudget(p, window, output, quick).value, inputLimit);
  }

  /** Rounded down: the largest whole number that is not above. */
  predicate RoundsDown(n: int, x: real) { n as real <= x && x < (n + 1) as real }

  /** The margin is the larger of a share of the window and a floor. */
  lemma MarginIs(p: Policy, window: int)
    ensures var (m, share) := (Margin(p, window), window as real * p.marginRatio);
            m >= p.marginFloor && share < (m + 1) as real && (m == p.marginFloor || RoundsDown(m, share))
  {}

  /** The water marks are the policy's shares of the hard limit, one pair for quick calls and one
      for deep ones. */
  lemma MarksAre(p: Policy, window: int, output: int, quick: bool)
    requires ResolveBudget(p, window, output, quick).Ok?
    ensures var b := ResolveBudget(p, window, output, quick).value;
            && b.limit == window && b.output == output && b.margin == Margin(p, window)
            && RoundsDown(b.soft, b.hard as real * if quick then p.quickSoft else p.deepSoft)
            && RoundsDown(b.target, b.hard as real * if quick then p.quickTarget else p.deepTarget)
  {}

  /** An input limit below the hard one takes its place, and the marks move along in proportion. */
  lemma LimitMovesMarks(b: Budget, limit: int)
    requires b.hard > 0
    ensures var c := WithInputLimit(b, limit);
            if 0 < limit < b.hard then
              && c.hard == limit && RoundsDown(c.soft, b.soft as real * limit as real / b.hard as real)
              && RoundsDown(c.target, b.target as real * limit as real / b.hard as real)
              && c.limit == b.limit && c.output == b.output && c.margin == b.margin
            else c == b
  {}

  /** A window is split exactly when the policy is sound and something is left for the input. */
  lemma ResolvesWhen(p: Policy, window: int, output: int, quick: bool)
    ensures var r := ResolveBudget(p, window, output, quick);
            var sound := 0.0 < p.quickTarget < p.quickSoft < 1.0 && 0.0 < p.deepTarget < p.deepSoft < 1.0
                         && 0.0 < p.marginRatio < 1.0 && 0 < p.marginFloor && 0 < p.outputLimit;
            && (r == Err(BadConfig) <==> !sound || window <= 0 || output <= 0)
            && (r.Ok? <==> sound && window > 0 && output > 0 && window > output + Margin(p, window))
            && (r.Ok? || r == Err(BadConfig) || r == Err(OverBudget))
  {}

  lemma ResolvedInOrder(p: Policy, window: int, output: int, quick: bool)
    requires ResolveBudget(p, window, output, quick).Ok?
    ensures var b := ResolveBudget(p, window, output, quick).value;
            BudgetOk(b) && b.hard + b.margin + b.output == window
  {
    var target, soft := ResolvedShares(p, window, output, quick);
    SharesInOrder(ResolveBudget(p, window, output, quick).value, target, soft);
  }

  lemma ResolvedShares(p: Policy, window: int, output: int, quick: bool) returns (target: real, soft: real)
    requires ResolveBudget(p, window, output, quick).Ok?
    ensures 0.0 < target < soft < 1.0
    ensures var b := ResolveBudget(p, window, output, quick).value;
            && b.target == (b.hard as real * target).Floor && b.soft == (b.hard as real * soft).Floor
            && 0 < b.hard && 0 < b.output && 0 < b.margin && b.limit == window == b.hard + b.margin + b.output
  {
    target, soft := if quick then p.quickTarget else p.deepTarget, if quick then p.quickSoft else p.deepSoft;
  }

  lemma SharesInOrder(b: Budget, target: real, soft: real)
    requires 0.0 < target < soft < 1.0 && 0 < b.hard && 0 < b.output && 0 < b.margin
    requires b.target == (b.hard as real * target).Floor && b.soft == (b.hard as real * soft).Floor
    requires b.limit == b.hard + b.margin + b.output
    ensures BudgetOk(b)
  {
    MarksInOrder(b.hard, target, soft);
  }

  lemma MarksInOrder(hard: int, target: real, soft: real)
    requires hard > 0 && 0.0 < target < soft < 1.0
    ensures 0 <= (hard as real * target).Floor <= (hard as real * soft).Floor <= hard
  {
    var t, s := ScaleOrder(hard as real, target, soft);
    FloorsInOrder(t, s, hard);
  }

  lemma ScaleOrder(h: real, target: real, soft: real) returns (t: real, s: real)
    requires h > 0.0 && 0.0 < target < soft < 1.0
    ensures t == h * target && s == h * soft && 0.0 <= t <= s <= h
  {
    t, s := h * target, h * soft;
  }

  lemma LimitKeepsOrder(b: Budget, limit: int)
    requires BudgetOk(b)
    ensures BudgetOk(WithInputLimit(b, limit))
    ensures limit > 0 ==> WithInputLimit(b, limit).hard == Min(b.hard, limit)
  {
    if 0 < limit < b.hard { ScaledInOrder(b.target, b.soft, limit, b.hard); }
  }

  lemma ScaledInOrder(target: int, soft: int, limit: int, hard: int)
    requires 0 <= target <= soft <= hard && 0 < limit && 0 < hard
    ensures 0 <= Scaled(target, limit, hard) <= Scaled(soft, limit, hard) <= limit
  {
    var t, s, l, h := target as real, soft as real, limit as real, hard as real;
    ProportionOrder(t, s, l, h);
    FloorsInOrder(Portion(t, l, h), Portion(s, l, h), limit);
  }

  lemma FloorsInOrder(t: real, s: real, n: int)
    requires 0.0 <= t <= s <= n as real
    ensures 0 <= t.Floor <= s.Floor <= n
  {}

  lemma ProportionOrder(t: real, s: real, l: real, h: real)
    requires 0.0 <= t <= s <= h && 0.0 < l && 0.0 < h
    ensures 0.0 <= Portion(t, l, h) <= Portion(s, l, h) <= l
  {
    PortionOrder(0.0, t, l, h);
    PortionOrder(t, s, l, h);
    PortionOrder(s, h, l, h);
    PortionEnds(l, h);
  }

  lemma PortionOrder(x: real, y: real, l: real, h: real)
    requires x <= y && 0.0 < l && 0.0 < h
    ensures Portion(x, l, h) <= Portion(y, l, h)
  {
    ScaleMonotone(x, y, l);
    DivideOrder(x * l, y * l, h);
  }

  lemma PortionEnds(l: real, h: real)
    requires h > 0.0
    ensures Portion(0.0, l, h) == 0.0 && Portion(h, l, h) == l
  {}

  lemma DivideOrder(a: real, b: real, h: real)
    requires h > 0.0 && a <= b
    ensures a / h <= b / h
  {}

  /** `FitOutputLimit`: output for an input of `used` tokens. */
  function FitOutput(p: Policy, window: int, inputLimit: int, requested: int, used: int): Result<int> {
    var minimum := Min(requested, MINIMUM_OUTPUT);
    match ResolveBudget(p, window, minimum, false)
    case Err(e) => Err(e)
    case Ok(b) =>
      if inputLimit > 0 && used > inputLimit then Err(OverBudget)
      else
        var available := window - b.margin - used;
        if available < minimum then Err(OverBudget) else Ok(Min(requested, available))
  }

  /** Input, margin and output fit the window and the input limit. */
  predicate Fits(p: Policy, window: int, inputLimit: int, used: int, output: int) {
    (inputLimit > 0 ==> used <= inputLimit) && used + Margin(p, window) + output <= window
  }

  /** The output is the largest that fits and was asked for, and there is one exactly when
      at least the minimum fits. */
  lemma OutputIsLargest(p: Policy, window: int, inputLimit: int, requested: int, used: int)
    requires PolicyOk(p) && window > 0 && requested > 0
    ensures var r := FitOutput(p, window, inputLimit, requested, used);
            && (r.Ok? ==>
                  Min(requested, MINIMUM_OUTPUT) <= r.value <= requested && Fits(p, window, inputLimit, used, r.value))
            && (r.Ok? ==> forall o :: r.value < o <= requested ==> !Fits(p, window, inputLimit, used, o))
            && (r.Ok? <==> Fits(p, window, inputLimit, used, Min(requested, MINIMUM_OUTPUT))
                           && Margin(p, window) + Min(requested, MINIMUM_OUTPUT) < window)
  {}

  function ManagedOutput(window: int, most: int): int {
    if window <= 0 || most <= 0 then 0 else Min(8192, Min(most, window / 4))
  }

  /** A managed output leaves three quarters of the window for the input. */
  lemma ManagedLeavesRoom(window: int, most: int)
    ensures var o := ManagedOutput(window, most);
            if window > 0 && most > 0 then
              && 0 <= o <= most && o <= 8192 && 4 * (window - o) >= 3 * window
              && forall k :: k <= most && k <= 8192 && 4 * k <= window ==> k <= o
            else o == 0
  {}

  // ----- preparing a call -----

  datatype Guard = Guard(policy: Policy, window: int, inputLimit: int, outputLimit: int)

  /** Tokens of the shrunken messages, without and with the notice about a short output. */
  datatype Sizes = Sizes(used: int, withNotice: int)

  /** What is sent: tokens of the input, the output it allows, and the explicit option. */
  datatype Call = Call(input: int, output: int, maxTokens: Option<int>)

  function OrDefault(limit: int, p: Policy): int { if limit == 0 then p.outputLimit else limit }

  function Requested(g: Guard, maxTokens: Option<int>): int {
    OrDefault(if maxTokens.Some? then maxTokens.value else g.outputLimit, g.policy)
  }

  /** `budgetModel.prepare`, `window` being unknown (0) for an overridden model. */
  function Prepare(g: Guard, window: int, maxTokens: Option<int>, s: Sizes): Result<Call> {
    var requested, ceiling := Requested(g, maxTokens), OrDefault(g.outputLimit, g.policy);
    if requested > ceiling then Err(OverCeiling)
    else
      match FitOutput(g.policy, window, g.inputLimit, requested, s.used)
      case Err(e) => Err(e)
      case Ok(output) =>
        if output == requested then Ok(Call(s.used, output, maxTokens))
        else
          match FitOutput(g.policy, window, g.inputLimit, requested, s.withNotice)
          case Ok(shorter) => Ok(Call(s.withNotice, shorter, Some(shorter)))
          case Err(_) => Ok(Call(s.used, output, Some(output)))
  }

  /** Every call that goes out fits: input limit, window and margin, minimum and ceiling. */
  lemma PreparedCallFits(g: Guard, window: int, maxTokens: Option<int>, s: Sizes)
    requires Prepare(g, window, maxTokens, s).Ok?
    ensures var (c, requested) := (Prepare(g, window, maxTokens, s).value, Requested(g, maxTokens));
            && Fits(g.policy, window, g.inputLimit, c.input, c.output)
            && 0 < Min(requested, MINIMUM_OUTPUT) <= c.output <= requested <= OrDefault(g.outputLimit, g.policy)
            && (c.maxTokens == Some(c.output) || (c.maxTokens == maxTokens && c.output == requested))
            && (c.input == s.used || c.input == s.withNotice)
  {}

  /** Which call goes out: the requested output with the messages as they are, if that fits;
      otherwise the largest output that fits, with the notice if there is room for it and
      without it if not. None goes out exactly when more is requested than allowed or not even
      the minimum fits. */
  lemma PreparedCallIs(g: Guard, window: int, maxTokens: Option<int>, s: Sizes)
    requires PolicyOk(g.policy) && window > 0 && Requested(g, maxTokens) > 0
    ensures var requested := Requested(g, maxTokens);
            var least := if requested < 512 then requested else 512;
            var fits := (used: int, output: int) => Fits(g.policy, window, g.inputLimit, used, output);
            var r := Prepare(g, window, maxTokens, s);
            && (r.Ok? <==> requested <= OrDefault(g.outputLimit, g.policy) && fits(s.used, least)
                           && Margin(g.policy, window) + least < window)
            && (r.Ok? && fits(s.used, requested) ==> r.value == Call(s.used, requested, maxTokens))
            && (r.Ok? && !fits(s.used, requested) ==>
                  && r.value.input == (if fits(s.withNotice, least) then s.withNotice else s.used)
                  && r.value.maxTokens == Some(r.value.output)
                  && fits(r.value.input, r.value.output)
                  && forall o :: r.value.output < o <= requested ==> !fits(r.value.input, o))
            && (r.Err? ==>
                  r.error == if requested > OrDefault(g.outputLimit, g.policy) then OverCeiling else OverBudget)
  {}

  /** What is requested: the call's own option, or else the guard's limit, where nothing given
      means the policy's limit; the guard's limit, or the policy's, is the most allowed. */
  lemma RequestedIs(g: Guard, maxTokens: Option<int>)
    ensures var own := if maxTokens.Some? then maxTokens.value else g.outputLimit;
            Requested(g, maxTokens) == (if own == 0 then g.policy.outputLimit else own)
    ensures OrDefault(g.outputLimit, g.policy) == if g.outputLimit == 0 then g.policy.outputLimit else g.outputLimit
  {}

  // ----- the shrunken retry -----

  /** The output of the retry: half of the rejected one, at least the minimum; none when
      that would not be smaller. */
  function RetryOutput(g: Guard, c: Call): Option<int> {
    var output := if c.maxTokens.Some? then c.maxTokens.value else OrDefault(g.outputLimit, g.policy);
    var next := Max(MINIMUM_OUTPUT, output / 2);
    if next >= output then None else Some(next)
  }

  /** The retry asks for half of what the rejected call asked for, but not less than 512, and
      there is one exactly when that is less than before. */
  lemma RetryHalves(g: Guard, c: Call, next: int)
    ensures var asked := if c.maxTokens.Some? then c.maxTokens.value
                         else if g.outputLimit == 0 then g.policy.outputLimit else g.outputLimit;
            RetryOutput(g, c) == Some(next)
            <==> next < asked && next >= 512 && 2 * next >= asked - 1 && (next == 512 || 2 * next <= asked)
  {}

  /** A retry asks for strictly less than the rejected call sent, and gets no more. */
  lemma RetryIsSmaller(g: Guard, window: int, maxTokens: Option<int>, s: Sizes, again: int, t: Sizes)
    requires Prepare(g, window, maxTokens, s).Ok?
    requires RetryOutput(g, Prepare(g, window, maxTokens, s).value).Some?
    requires Prepare(g, again, RetryOutput(g, Prepare(g, window, maxTokens, s).value), t).Ok?
    ensures var first := Prepare(g, window, maxTokens, s).value;
            var second := Prepare(g, again, RetryOutput(g, first), t).value;
            MINIMUM_OUTPUT <= second.output < first.output && second.maxTokens.Some?
            && Fits(g.policy, again, g.inputLimit, second.input, second.output)
  {
    var first := Prepare(g, window, maxTokens, s).value;
    PreparedCallFits(g, window, maxTokens, s);
    PreparedCallFits(g, again, RetryOutput(g, first), t);
  }

  // ----- calling the provider -----

  /** A provider's answer: a message, a context rejection with or without partial output,
      another failure, or nothing at all. */
  datatype Reply = Message(tools: nat, finished: bool) | ContextRejected(partial: bool) | OtherFailure | Empty

  function ReplyResult(r: Reply): Result<Reply> {
    match r
    case ContextRejected(_) => Err(Rejected)
    case OtherFailure => Err(Failed)
    case _ => Ok(r)
  }

  /** What happens outside during one call: message sizes, provider answers, cancellation. */
  datatype World = World(
    window: int, first: Sizes, reply: Reply, cancelled: bool,
    retryWindow: int, second: Sizes, retryReply: Reply)

  /** The counter that a task shares between calls, copies of its model and resumed runs. */
  class TaskBudget {
    var limit: int
    var used: int
    ghost var provided: nat   // requests that reached the provider

    constructor (max: int)
      requires max >= 0
      ensures Valid() && limit == max && used == 0 && provided == 0
    {
      limit, used, provided := max, 0, 0;
    }

    ghost predicate Valid()
      reads this
    {
      provided <= used <= limit
    }

    method Reserve() returns (ok: bool)
      modifies this`used
      ensures ok == (old(used) < limit) && used == old(used) + if ok then 1 else 0
    {
      ok := used < limit;
      if ok { used := used + 1; }
    }
  }

  /** The requests of one guarded call, each within its limits, the second smaller. */
  ghost predicate CallsOk(g: Guard, w: World, calls: seq<Call>) {
    && |calls| <= 2
    && (|calls| >= 1 ==> Fits(g.policy, w.window, g.inputLimit, calls[0].input, calls[0].output)
                         && 0 < calls[0].output <= OrDefault(g.outputLimit, g.policy))
    && (|calls| == 2 ==> Fits(g.policy, w.retryWindow, g.inputLimit, calls[1].input, calls[1].output)
                         && MINIMUM_OUTPUT <= calls[1].output < calls[0].output && w.reply == ContextRejected(false))
  }

  /** Why a rejected call is not tried again; `room` says whether the counter has a call left. */
  function NoRetry(g: Guard, w: World, first: Call, room: bool): Option<Error> {
    if w.cancelled then Some(Cancelled)
    else if RetryOutput(g, first).None? then Some(Rejected)
    else
      match Prepare(g, w.retryWindow, RetryOutput(g, first), w.second)
      case Err(e) => Some(e)
      case Ok(_) => if room then None else Some(Exhausted)
  }

  /** A rejected call is tried again exactly when the call is not cancelled, less output can be
      asked for, the smaller call fits, and the counter has room for it. */
  lemma RetriedWhen(g: Guard, w: World, first: Call, room: bool)
    ensures NoRetry(g, w, first, room).None?
            <==> !w.cancelled && RetryOutput(g, first).Some? && room
                 && Prepare(g, w.retryWindow, RetryOutput(g, first), w.second).Ok?
  {}

  /** A call that fits goes out; only a rejection without output is answered by a second one. */
  ghost predicate Answers(g: Guard, maxTokens: Option<int>, w: World, room: bool, result: Result<Reply>,
                          calls: seq<Call>) {
    match Prepare(g, w.window, maxTokens, w.first)
    case Err(e) => calls == [] && result == Err(e)
    case Ok(first) =>
      if w.reply != ContextRejected(false) then calls == [first] && Delivers(result, w.reply)
      else
        match NoRetry(g, w, first, room)
        case Some(e) => calls == [first] && result == Err(e)
        case None =>
          && calls == [first, Prepare(g, w.retryWindow, RetryOutput(g, first), w.second).value]
          && Delivers(result, w.retryReply)
  }

  /** A message is handed on as it is, and so is an empty answer; an error is an error. */
  ghost predicate Delivers(result: Result<Reply>, reply: Reply) {
    match reply
    case Message(tools, finished) => result == Ok(Message(tools, finished))
    case Empty => result == Ok(Empty)
    case ContextRejected(_) => result == Err(Rejected)
    case OtherFailure => result == Err(Failed)
  }

  /** `budgetModel.Generate` for a task: at most one recovery, paid from the counter. */
  method GuardedCall(g: Guard, b: TaskBudget, maxTokens: Option<int>, w: World)
    returns (result: Result<Reply>, calls: seq<Call>)
    requires b.provided < b.used <= b.limit
    modifies b`used, b`provided
    ensures CallsOk(g, w, calls) && b.Valid()
    ensures b.provided == old(b.provided) + |calls|
    ensures b.used == old(b.used) + if |calls| == 2 then 1 else 0
    ensures Answers(g, maxTokens, w, old(b.used < b.limit), result, calls)
  {
    calls := [];
    var prepared := Prepare(g, w.window, maxTokens, w.first);
    if prepared.Err? { return Err(prepared.error), calls; }
    PreparedCallFits(g, w.window, maxTokens, w.first);
    calls := [prepared.value];
    b.provided := b.provided + 1;
    if w.reply != ContextRejected(false) { return ReplyResult(w.reply), calls; }
    if w.cancelled { return Err(Cancelled), calls; }
    var next := RetryOutput(g, prepared.value);
    if next.None? { return Err(Rejected), calls; }
    var again := Prepare(g, w.retryWindow, next, w.second);
    if again.Err? { return Err(again.error), calls; }
    RetryIsSmaller(g, w.window, maxTokens, w.first, w.retryWindow, w.second);
    var reserved := b.Reserve();
    if !reserved { return Err(Exhausted), calls; }
    calls := calls + [again.value];
    b.provided := b.provided + 1;
    result := ReplyResult(w.retryReply);
  }

  /** A message is accepted unless it asks for tools and is not finished or leaves no call to
      use their results; anything else is an error. */
  ghost predicate Accepts(reply: Result<Reply>, last: bool, result: Result<Reply>) {
    match reply
    case Err(e) => result == Err(e)
    case Ok(Message(tools, finished)) =>
      result == (if tools == 0 then Ok(Message(tools, finished))
                 else if !finished then Err(BadOutput)
                 else if last then Err(Exhausted)
                 else Ok(Message(tools, finished)))
    case Ok(_) => result == Err(BadOutput)
  }

  /** A task's model; copies made for other tools share the budget object. */
  class TaskModel {
    const guard: Guard
    const budget: TaskBudget

    constructor (g: Guard, b: TaskBudget)
      ensures guard == g && budget == b
    {
      guard, budget := g, b;
    }

    method WithTools() returns (copy: TaskModel)
      ensures fresh(copy) && copy.budget == budget && copy.guard == guard
    {
      copy := new TaskModel(guard, budget);
    }

    /** `peTaskModel.Generate`: the counter covers every request to the provider, never
        passes its limit, and a reply that asks for tools leaves a call to use the results. */
    method Generate(maxTokens: Option<int>, w: World)
      returns (result: Result<Reply>, calls: seq<Call>, ghost answer: Result<Reply>)
      requires budget.Valid()
      modifies budget`used, budget`provided
      ensures budget.Valid() && CallsOk(guard, w, calls)
      ensures budget.provided == old(budget.provided) + |calls|
      ensures old(budget.used) <= budget.used <= old(budget.used) + 2
      ensures |calls| <= budget.used - old(budget.used)
      ensures old(budget.used) == budget.limit ==> result == Err(Exhausted) && calls == []
      ensures old(budget.used) < budget.limit ==>
                Answers(guard, maxTokens, w, old(budget.used) + 1 < budget.limit, answer, calls)
                && Accepts(answer, budget.used == budget.limit, result)
      ensures result.Ok? ==> result.value.Message?
      ensures result.Ok? && result.value.tools > 0 ==> result.value.finished && budget.used < budget.limit
    {
      calls, answer := [], Err(Exhausted);
      if budget.used >= budget.limit { return Err(Exhausted), calls, answer; }
      budget.used := budget.used + 1;
      result, calls := GuardedCall(guard, budget, maxTokens, w);
      answer := result;
      if result.Err? { return; }
      match result.value {
        case Message(tools, finished) =>
          if tools > 0 && !finished { return Err(BadOutput), calls, answer; }
          if tools > 0 && budget.used == budget.limit { return Err(Exhausted), calls, answer; }
        case _ => return Err(BadOutput), calls, answer;
      }
    }
  }

  /** A whole run of a task, over copies of its model and resumed anywhere: the counter
      travels with the task, so the provider is asked at most `limit` times in all. */
  method RunTask(b: TaskBudget, models: seq<TaskModel>, maxTokens: seq<Option<int>>, worlds: seq<World>)
    returns (asked: nat)
    requires b.Valid() && |models| == |worlds| == |maxTokens| && forall i :: 0 <= i < |models| ==> models[i].budget == b
    modifies b`used, b`provided
    ensures b.Valid() && asked <= b.used - old(b.used) && b.used <= b.limit
    ensures b.provided == old(b.provided) + asked
  {
    asked := 0;
    for i := 0 to |worlds|
      invariant b.Valid() && asked <= b.used - old(b.used) && b.provided == old(b.provided) + asked
    {
      var _, calls, _ := models[i].Generate(maxTokens[i], worlds[i]);
      asked := asked + |calls|;
    }
  }
}
