/** The Markdown scanner behind the citation rewriter, as a step function, and the
    stability of every scanner under appended text.

    Text is a string whose characters stand for bytes. Resolving a complete tag or
    link does not depend on how the text is cut, so the registry and the attribute
    syntax are parameters. */
module CitationScan {
  import opened Options

  datatype Kind = Cite | Kb | Web

  datatype Env = Env(
    bound: nat,                      // longest unfinished tag or link kept waiting
    tag: (Kind, string) -> string,   // a complete tag, resolved or marked unverified
    link: string -> Option<string>,  // a registered link target, rendered
    dest: string -> string,          // the destination inside `(...)`
    blank: string -> bool)           // only white space

  // What stands in for a tag or a link that cannot be resolved.
  const UNVERIFIED_SOURCE := "（来源未核验）"
  const UNVERIFIED_LINK := "（链接未核验）"

  /** The scanner's state: unread text, an open code run, and everything emitted. */
  datatype Scan = Scan(pending: string, code: string, fenced: bool, out: string)

  // ----- scanners -----

  /** Position of the first `c` at or after `i`, or the length of the text. */
  function IndexFrom(p: string, c: char, i: nat): (r: nat)
    requires i <= |p|
    ensures i <= r <= |p|
    ensures r < |p| ==> p[r] == c
    decreases |p| - i
  {
    if i == |p| || p[i] == c then i else IndexFrom(p, c, i + 1)
  }

  /** End of the run of `c` starting at `i`. */
  function RunEnd(p: string, c: char, i: nat): (r: nat)
    requires i <= |p|
    ensures i <= r <= |p|
    ensures r < |p| ==> p[r] != c
    decreases |p| - i
  {
    if i == |p| || p[i] != c then i else RunEnd(p, c, i + 1)
  }

  lemma {:induction false} IndexSkips(p: string, c: char, i: nat)
    requires i <= |p|
    ensures forall k :: i <= k < IndexFrom(p, c, i) ==> p[k] != c
    decreases |p| - i
  {
    if i < |p| && p[i] != c { IndexSkips(p, c, i + 1); }
  }

  lemma {:induction false} RunIsUniform(p: string, c: char, i: nat)
    requires i <= |p|
    ensures forall k :: i <= k < RunEnd(p, c, i) ==> p[k] == c
    decreases |p| - i
  {
    if i < |p| && p[i] == c { RunIsUniform(p, c, i + 1); }
  }

  /** `citationCodeSpanEnd`: the end of the first backtick run of exactly `width`. */
  function SpanEnd(p: string, width: nat, i: nat, final: bool): (r: Option<nat>)
    requires i <= |p|
    ensures r.Some? ==> i <= r.value <= |p|
    ensures r.Some? && width > 0 ==> i < r.value
    decreases |p| - i
  {
    if i == |p| then None
    else if p[i] != '`' then SpanEnd(p, width, i + 1, final)
    else
      var e := RunEnd(p, '`', i);
      if e == |p| && !final then None
      else if e - i == width then Some(e)
      else SpanEnd(p, width, e, final)
  }

  /** `citationTagEnd`: the first `>` outside quotes. */
  function TagEnd(p: string, i: nat, quote: Option<char>): (r: Option<nat>)
    requires i <= |p|
    ensures r.Some? ==> i <= r.value < |p| && p[r.value] == '>'
    decreases |p| - i
  {
    if i == |p| then None
    else match quote
      case Some(q) => TagEnd(p, i + 1, if p[i] == q then None else quote)
      case None =>
        if p[i] == '\'' || p[i] == '"' then TagEnd(p, i + 1, Some(p[i]))
        else if p[i] == '>' then Some(i)
        else TagEnd(p, i + 1, None)
  }

  /** `citationClosing`: the bracket that balances the first one, skipping escapes. */
  function Closing(p: string, open: char, close: char, i: nat, level: int): (r: Option<nat>)
    ensures r.Some? ==> i <= r.value < |p| && p[r.value] == close
    ensures r.Some? && p[i] == open && open != close ==> i < r.value
    decreases |p| - i
  {
    if i >= |p| then None
    else if p[i] == '\\' then Closing(p, open, close, i + 2, level)
    else
      var up := if p[i] == open then level + 1 else level;
      if p[i] == close then
        if up - 1 == 0 then Some(i) else Closing(p, open, close, i + 1, up - 1)
      else Closing(p, open, close, i + 1, up)
  }

  function Lower(s: string): (r: string)
    ensures |r| == |s|
  {
    seq(|s|, i requires 0 <= i < |s| => if 'A' <= s[i] <= 'Z' then s[i] - 'A' + 'a' else s[i])
  }

  function Opening(k: Kind): (r: string)
    ensures |r| >= 3
  {
    match k case Cite => "<cite" case Kb => "<kb" case Web => "<web"
  }

  datatype TagPrefix = NoTag | Partial(kind: Kind) | Full(kind: Kind)

  predicate IsPartial(p: string, k: Kind) { Lower(p) <= Opening(k) }

  predicate IsFull(p: string, k: Kind) {
    |p| > |Opening(k)| && Lower(p[..|Opening(k)|]) == Opening(k) && p[|Opening(k)|] in " \t\r\n/>"
  }

  function PrefixAmong(p: string, kinds: seq<Kind>): TagPrefix {
    if kinds == [] then NoTag
    else if IsPartial(p, kinds[0]) then Partial(kinds[0])
    else if IsFull(p, kinds[0]) then Full(kinds[0])
    else PrefixAmong(p, kinds[1..])
  }

  const KINDS: seq<Kind> := [Cite, Kb, Web]

  /** `citationPrefix`: does the text start, or could it start, a citation tag? */
  function PrefixOf(p: string): TagPrefix { PrefixAmong(p, KINDS) }

  /** The current output line: what follows the last newline. */
  function LastLine(s: string): (r: string)
    ensures |r| <= |s|
  {
    if s == "" then ""
    else if s[|s|-1] == '\n' then ""
    else LastLine(s[..|s|-1]) + [s[|s|-1]]
  }

  /** A fence may open or close here: at most three spaces precede it on its line. */
  predicate FenceStart(out: string) {
    |LastLine(out)| <= 3 && forall c :: c in LastLine(out) ==> c == ' '
  }

  function Leading(p: string): (r: nat)
    ensures r <= |p|
  {
    RunEnd(p, ' ', 0)
  }

  /** A line that closes a fence opened by `code`, where a fence may close. */
  predicate ClosingLine(env: Env, line: string, code: string)
    requires code != ""
  {
    var trimmed := line[Leading(line)..];
    Leading(line) <= 3 && code <= trimmed && env.blank(trimmed[RunEnd(trimmed, code[0], 0)..])
  }

  predicate ClosesFence(env: Env, out: string, line: string, code: string)
    requires code != ""
  {
    FenceStart(out) && ClosingLine(env, line, code)
  }

  /** A run of three or more at a fence position opens a fence, unless a backtick
      fence has a backtick in its info string. */
  predicate OpensFence(out: string, p: string, n: nat)
    requires 0 < n <= |p|
  {
    n >= 3 && FenceStart(out) && !(p[0] == '`' && '`' in p[n..IndexFrom(p, '\n', n)])
  }

  // ----- one move of the scanner -----

  /** Text handed out, and what remains. `None` means: wait for more input. */
  datatype Move = Move(emit: string, rest: string, code: string, fenced: bool)

  predicate Progresses(s: Scan, m: Move) {
    |m.rest| < |s.pending| || (m.rest == s.pending && s.code != "" && m.code == "")
  }

  /** End of the first line, its newline included. */
  function LineEnd(p: string): (end: nat)
    requires p != ""
    ensures 0 < end <= |p| && (end < |p| ==> p[end-1] == '\n')
  {
    var nl := IndexFrom(p, '\n', 0);
    if nl == |p| then nl else nl + 1
  }

  function MoveFence(env: Env, s: Scan, final: bool): (m: Option<Move>)
    requires s.pending != "" && s.code != ""
    ensures m.Some? ==> Progresses(s, m.value)
  {
    if IndexFrom(s.pending, '\n', 0) == |s.pending| && !final then None
    else
      var end := LineEnd(s.pending);
      var line := s.pending[..end];
      if ClosesFence(env, s.out, line, s.code) then Some(Move(line, s.pending[end..], "", false))
      else Some(Move(line, s.pending[end..], s.code, true))
  }

  function MoveSpan(s: Scan, final: bool): (m: Option<Move>)
    requires s.pending != "" && s.code != ""
    ensures m.Some? ==> Progresses(s, m.value)
  {
    match SpanEnd(s.pending, |s.code|, 0, final)
    case Some(end) => Some(Move(s.code + s.pending[..end], s.pending[end..], "", false))
    case None => if final then Some(Move(s.code, s.pending, "", s.fenced)) else None
  }

  function MoveTicks(s: Scan, final: bool): (m: Option<Move>)
    requires s.pending != "" && (s.pending[0] == '`' || s.pending[0] == '~')
    ensures m.Some? ==> |m.value.rest| < |s.pending|
  {
    var p := s.pending;
    var n := RunEnd(p, p[0], 0);
    if n == |p| && !final then None
    else if n >= 3 && FenceStart(s.out) && IndexFrom(p, '\n', n) == |p| && !final then None
    else
      var fenced := OpensFence(s.out, p, n);
      if p[0] == '~' && !fenced then Some(Move(p[..n], p[n..], "", s.fenced))
      else Some(Move(if fenced then p[..n] else "", p[n..], p[..n], fenced))
  }

  function MoveTag(env: Env, s: Scan, final: bool): (m: Option<Move>)
    requires s.pending != ""
    ensures m.Some? ==> |m.value.rest| < |s.pending|
  {
    var p, prefix := s.pending, PrefixOf(s.pending);
    if prefix.Partial? && !final then None
    else if prefix.Partial? && |p| < |Opening(prefix.kind)| then Some(Move(p, "", "", s.fenced))
    else if prefix.NoTag? then Some(Move("<", p[1..], "", s.fenced))
    else match TagEnd(p, 1, None)
      case None => if !final && |p| < env.bound then None else Some(Move(UNVERIFIED_SOURCE, "", "", s.fenced))
      case Some(end) => Some(Move(env.tag(prefix.kind, p[..end+1]), p[end+1..], "", s.fenced))
  }

  /** What a complete link comes out as: its text ends at `mid`, its target at `end`. */
  function LinkEmit(env: Env, p: string, mid: nat, end: nat): string
    requires 0 < mid < mid + 1 < end < |p|
    decreases |p|, 0, 0
  {
    var text, target := p[1..mid], env.dest(p[mid+2..end]);
    if "#" <= target then "[" + Normalize(env, text) + p[mid..end+1]
    else match env.link(target)
      case Some(rendered) => rendered
      case None => Normalize(env, text) + UNVERIFIED_LINK
  }

  function LinkMove(env: Env, p: string, mid: nat, end: nat, fenced: bool): Move
    requires 0 < mid < mid + 1 < end < |p|
    decreases |p|, 0, 1
  {
    Move(LinkEmit(env, p, mid, end), p[end+1..], "", fenced)
  }

  function MoveLink(env: Env, s: Scan, final: bool): (m: Option<Move>)
    requires s.pending != "" && s.pending[0] == '['
    ensures m.Some? ==> |m.value.rest| < |s.pending|
    decreases |s.pending|, 0, 2
  {
    var p := s.pending;
    match Closing(p, '[', ']', 0, 0)
    case None => if !final && |p| < env.bound then None else Some(Move("[", p[1..], "", s.fenced))
    case Some(mid) =>
      if mid + 1 == |p| && !final then None
      else if mid + 1 >= |p| || p[mid+1] != '(' then Some(Move("[", p[1..], "", s.fenced))
      else match Closing(p[mid+1..], '(', ')', 0, 0)
        case None => if !final && |p| < env.bound then None else Some(Move(UNVERIFIED_LINK, "", "", s.fenced))
        case Some(close) => Some(LinkMove(env, p, mid, mid + 1 + close, s.fenced))
  }

  function NextMove(env: Env, s: Scan, final: bool): (m: Option<Move>)
    requires s.pending != ""
    ensures m.Some? ==> Progresses(s, m.value)
    decreases |s.pending|, 0, 3
  {
    var p := s.pending;
    if s.code != "" then
      if s.fenced then MoveFence(env, s, final) else MoveSpan(s, final)
    else if p[0] == '\\' then
      if |p| == 1 && !final then None
      else if |p| == 1 then Some(Move(p, "", "", s.fenced))
      else Some(Move(p[..2], p[2..], "", s.fenced))
    else if p[0] == '`' || p[0] == '~' then MoveTicks(s, final)
    else if p[0] == '<' then MoveTag(env, s, final)
    else if p[0] == '[' then MoveLink(env, s, final)
    else Some(Move(p[..1], p[1..], "", s.fenced))
  }

  function Take(s: Scan, m: Move): Scan { Scan(m.rest, m.code, m.fenced, s.out + m.emit) }

  /** Move until the input is used up or the scanner has to wait. */
  function Run(env: Env, s: Scan, final: bool): Scan
    decreases |s.pending|, if s.code == "" then 0 else 1, 4
  {
    if s.pending == "" then s
    else match NextMove(env, s, final)
      case None => s
      case Some(m) => Run(env, Take(s, m), final)
  }

  const START := Scan("", "", false, "")

  /** `normalizeCitations`: the whole text in one final push. */
  function Normalize(env: Env, text: string): string
    decreases |text|, 0, 5
  {
    Run(env, START.(pending := text), true).out
  }
}
