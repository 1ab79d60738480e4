/** Chunk invariance of the citation scanner: what it decides without waiting stays
    decided when more text arrives. */
module CitationStable {
  import opened CitationScan
  import opened Options

  lemma {:induction false} IndexStable(p: string, q: string, c: char, i: nat)
    requires i <= |p| && IndexFrom(p, c, i) < |p|
    ensures IndexFrom(p + q, c, i) == IndexFrom(p, c, i)
    decreases |p| - i
  {
    if p[i] != c { IndexStable(p, q, c, i + 1); }
  }

  lemma {:induction false} RunEndStable(p: string, q: string, c: char, i: nat)
    requires i <= |p| && RunEnd(p, c, i) < |p|
    ensures RunEnd(p + q, c, i) == RunEnd(p, c, i)
    decreases |p| - i
  {
    if p[i] == c { RunEndStable(p, q, c, i + 1); }
  }

  lemma {:induction false} SpanEndStable(p: string, q: string, width: nat, i: nat, final: bool)
    requires i <= |p| && SpanEnd(p, width, i, false).Some? && width > 0
    ensures SpanEnd(p + q, width, i, final) == SpanEnd(p, width, i, false)
    decreases |p| - i
  {
    if p[i] != '`' {
      SpanEndStable(p, q, width, i + 1, final);
    } else {
      var e := RunEnd(p, '`', i);
      RunEndStable(p, q, '`', i);
      if e - i != width { SpanEndStable(p, q, width, e, final); }
    }
  }

  lemma {:induction false} TagEndStable(p: string, q: string, i: nat, quote: Option<char>)
    requires i <= |p| && TagEnd(p, i, quote).Some?
    ensures TagEnd(p + q, i, quote) == TagEnd(p, i, quote)
    decreases |p| - i
  {
    var next :=
      if quote.Some? then (if p[i] == quote.value then None else quote)
      else if p[i] == '\'' || p[i] == '"' then Some(p[i]) else None;
    if quote.Some? || p[i] != '>' { TagEndStable(p, q, i + 1, next); }
  }

  lemma {:induction false} ClosingStable(p: string, q: string, open: char, close: char, i: nat, level: int)
    requires Closing(p, open, close, i, level).Some?
    ensures Closing(p + q, open, close, i, level) == Closing(p, open, close, i, level)
    decreases |p| - i
  {
    if p[i] == '\\' {
      ClosingStable(p, q, open, close, i + 2, level);
    } else {
      var up := if p[i] == open then level + 1 else level;
      if p[i] != close { ClosingStable(p, q, open, close, i + 1, up); }
      else if up - 1 != 0 { ClosingStable(p, q, open, close, i + 1, up - 1); }
    }
  }

  lemma LowerPrefix(p: string, q: string, n: nat)
    requires n <= |p|
    ensures Lower(p + q)[..n] == Lower(p)[..n] && Lower(p)[..n] == Lower(p[..n])
  {}

  lemma KindStable(p: string, q: string, k: Kind)
    requires !IsPartial(p, k)
    ensures !IsPartial(p + q, k) && (IsFull(p + q, k) <==> IsFull(p, k))
  {
    var o := Opening(k);
    LowerPrefix(p, q, |p|);
    if |p| > |o| {
      assert (p + q)[..|o|] == p[..|o|];
    } else if |p + q| > |o| {
      LowerPrefix(p + q, "", |o|);
    }
  }

  lemma {:induction false} PrefixStable(p: string, q: string, kinds: seq<Kind>)
    requires !PrefixAmong(p, kinds).Partial?
    ensures PrefixAmong(p + q, kinds) == PrefixAmong(p, kinds)
  {
    if kinds != [] {
      KindStable(p, q, kinds[0]);
      if !IsFull(p, kinds[0]) { PrefixStable(p, q, kinds[1..]); }
    }
  }

  /** The buffer bound forces a decision on a tag or link that is not finished yet. */
  predicate Forced(env: Env, s: Scan) {
    && s.pending != "" && s.code == "" && |s.pending| >= env.bound
    && (s.pending[0] == '<' ==> PrefixOf(s.pending).Full? && TagEnd(s.pending, 1, None).None?)
    && (s.pending[0] == '[' ==> UnfinishedLink(s.pending))
    && (s.pending[0] == '<' || s.pending[0] == '[')
  }

  predicate UnfinishedLink(p: string) {
    match Closing(p, '[', ']', 0, 0)
    case None => true
    case Some(mid) => mid + 1 < |p| && p[mid+1] == '(' && Closing(p[mid+1..], '(', ')', 0, 0).None?
  }

  function Append(s: Scan, q: string): Scan { s.(pending := s.pending + q) }

  function AppendMove(m: Move, q: string): Move { m.(rest := m.rest + q) }

  lemma FenceStable(env: Env, s: Scan, q: string, final: bool)
    requires s.pending != "" && s.code != "" && MoveFence(env, s, false).Some?
    ensures MoveFence(env, Append(s, q), final) == Some(AppendMove(MoveFence(env, s, false).value, q))
  {
    var p := s.pending;
    var nl := IndexFrom(p, '\n', 0);
    IndexStable(p, q, '\n', 0);
    assert (p + q)[..nl+1] == p[..nl+1] && (p + q)[nl+1..] == p[nl+1..] + q;
  }

  lemma SpanStable(s: Scan, q: string, final: bool)
    requires s.pending != "" && s.code != "" && MoveSpan(s, false).Some?
    ensures MoveSpan(Append(s, q), final) == Some(AppendMove(MoveSpan(s, false).value, q))
  {
    var p := s.pending;
    SpanEndStable(p, q, |s.code|, 0, final);
    var end := SpanEnd(p, |s.code|, 0, false).value;
    assert (p + q)[..end] == p[..end] && (p + q)[end..] == p[end..] + q;
  }

  lemma TicksStable(s: Scan, q: string, final: bool)
    requires s.pending != "" && (s.pending[0] == '`' || s.pending[0] == '~') && MoveTicks(s, false).Some?
    ensures MoveTicks(Append(s, q), final) == Some(AppendMove(MoveTicks(s, false).value, q))
  {
    var p := s.pending;
    var n := RunEnd(p, p[0], 0);
    RunEndStable(p, q, p[0], 0);
    assert (p + q)[..n] == p[..n] && (p + q)[n..] == p[n..] + q;
    if n >= 3 && FenceStart(s.out) {
      IndexStable(p, q, '\n', n);
      var nl := IndexFrom(p, '\n', n);
      assert (p + q)[n..nl] == p[n..nl];
    }
  }

  lemma TagStable(env: Env, s: Scan, q: string, final: bool)
    requires s.pending != "" && s.pending[0] == '<' && s.code == "" && !Forced(env, s)
    requires MoveTag(env, s, false).Some?
    ensures MoveTag(env, Append(s, q), final) == Some(AppendMove(MoveTag(env, s, false).value, q))
  {
    var p := s.pending;
    PrefixStable(p, q, KINDS);
    assert (p + q)[1..] == p[1..] + q;
    if PrefixOf(p).Full? {
      TagEndStable(p, q, 1, None);
      Cut(p, q, TagEnd(p, 1, None).value + 1);
    }
  }

  lemma Cut(p: string, q: string, k: nat)
    requires k <= |p|
    ensures (p + q)[..k] == p[..k] && (p + q)[k..] == p[k..] + q
  {}

  /** A link is decided without force only when all brackets that matter are there. */
  lemma LinkDecided(env: Env, s: Scan)
    requires s.pending != "" && s.pending[0] == '[' && s.code == "" && !Forced(env, s)
    requires MoveLink(env, s, false).Some?
    ensures var (p, mid) := (s.pending, Closing(s.pending, '[', ']', 0, 0));
            && mid.Some? && mid.value + 1 < |p|
            && (p[mid.value+1] == '(' ==> Closing(p[mid.value+1..], '(', ')', 0, 0).Some?)
  {}

  lemma LinkFound(env: Env, s: Scan, mid: nat, close: nat, final: bool)
    requires s.pending != "" && s.pending[0] == '[' && Closing(s.pending, '[', ']', 0, 0) == Some(mid)
    requires mid + 1 < |s.pending| && s.pending[mid+1] == '('
    requires Closing(s.pending[mid+1..], '(', ')', 0, 0) == Some(close)
    ensures 0 < mid && 0 < close
    ensures MoveLink(env, s, final) == Some(LinkMove(env, s.pending, mid, mid + 1 + close, s.fenced))
  {}

  lemma NoLink(env: Env, s: Scan, mid: nat, final: bool)
    requires s.pending != "" && s.pending[0] == '[' && Closing(s.pending, '[', ']', 0, 0) == Some(mid)
    requires mid + 1 < |s.pending| && s.pending[mid+1] != '('
    ensures MoveLink(env, s, final) == Some(Move("[", s.pending[1..], "", s.fenced))
  {}

  lemma FoundStable(env: Env, s: Scan, q: string, mid: nat, close: nat, final: bool)
    requires s.pending != "" && s.pending[0] == '[' && Closing(s.pending, '[', ']', 0, 0) == Some(mid)
    requires mid + 1 < |s.pending| && s.pending[mid+1] == '('
    requires Closing(s.pending[mid+1..], '(', ')', 0, 0) == Some(close)
    ensures 0 < mid && 0 < close
    ensures MoveLink(env, Append(s, q), final) == Some(LinkMove(env, s.pending + q, mid, mid + 1 + close, s.fenced))
  {
    ClosingStable(s.pending, q, '[', ']', 0, 0);
    TargetStable(s.pending, q, mid);
    LinkFound(env, Append(s, q), mid, close, final);
  }

  lemma FoundFurther(env: Env, s: Scan, q: string, mid: nat, close: nat, final: bool)
    requires s.pending != "" && s.pending[0] == '[' && Closing(s.pending, '[', ']', 0, 0) == Some(mid)
    requires mid + 1 < |s.pending| && s.pending[mid+1] == '('
    requires Closing(s.pending[mid+1..], '(', ')', 0, 0) == Some(close)
    ensures 0 < mid && 0 < close && mid + 1 + close < |s.pending|
    ensures MoveLink(env, Append(s, q), final)
            == Some(AppendMove(LinkMove(env, s.pending, mid, mid + 1 + close, s.fenced), q))
  {
    FoundStable(env, s, q, mid, close, final);
    LinkMoveStable(env, s.pending, q, mid, mid + 1 + close, s.fenced);
  }

  lemma FoundCase(env: Env, s: Scan, q: string, mid: nat, close: nat, final: bool)
    requires s.pending != "" && s.pending[0] == '[' && Closing(s.pending, '[', ']', 0, 0) == Some(mid)
    requires mid + 1 < |s.pending| && s.pending[mid+1] == '('
    requires Closing(s.pending[mid+1..], '(', ')', 0, 0) == Some(close)
    ensures MoveLink(env, s, false).Some?
    ensures MoveLink(env, Append(s, q), final) == Some(AppendMove(MoveLink(env, s, false).value, q))
  {
    LinkFound(env, s, mid, close, false);
    FoundFurther(env, s, q, mid, close, final);
  }

  lemma AbsentCase(env: Env, s: Scan, q: string, mid: nat, final: bool)
    requires s.pending != "" && s.pending[0] == '[' && Closing(s.pending, '[', ']', 0, 0) == Some(mid)
    requires mid + 1 < |s.pending| && s.pending[mid+1] != '('
    ensures MoveLink(env, s, false).Some?
    ensures MoveLink(env, Append(s, q), final) == Some(AppendMove(MoveLink(env, s, false).value, q))
  {
    ClosingStable(s.pending, q, '[', ']', 0, 0);
    NoLink(env, s, mid, false);
    NoLink(env, Append(s, q), mid, final);
    Cut(s.pending, q, 1);
  }

  lemma LinkStable(env: Env, s: Scan, q: string, final: bool)
    requires s.pending != "" && s.pending[0] == '[' && s.code == "" && !Forced(env, s)
    requires MoveLink(env, s, false).Some?
    ensures MoveLink(env, Append(s, q), final) == Some(AppendMove(MoveLink(env, s, false).value, q))
  {
    LinkDecided(env, s);
    var p := s.pending;
    var mid := Closing(p, '[', ']', 0, 0).value;
    if p[mid+1] == '(' {
      FoundCase(env, s, q, mid, Closing(p[mid+1..], '(', ')', 0, 0).value, final);
    } else {
      AbsentCase(env, s, q, mid, final);
    }
  }

  lemma TargetStable(p: string, q: string, mid: nat)
    requires mid + 1 < |p| && Closing(p[mid+1..], '(', ')', 0, 0).Some?
    ensures Closing((p + q)[mid+1..], '(', ')', 0, 0) == Closing(p[mid+1..], '(', ')', 0, 0)
  {
    assert (p + q)[mid+1..] == p[mid+1..] + q;
    ClosingStable(p[mid+1..], q, '(', ')', 0, 0);
  }

  lemma LinkEmitStable(env: Env, p: string, q: string, mid: nat, end: nat)
    requires 0 < mid < mid + 1 < end < |p|
    ensures LinkEmit(env, p + q, mid, end) == LinkEmit(env, p, mid, end)
  {
    assert (p + q)[1..mid] == p[1..mid] && (p + q)[mid+2..end] == p[mid+2..end];
    assert (p + q)[mid..end+1] == p[mid..end+1];
  }

  lemma LinkMoveStable(env: Env, p: string, q: string, mid: nat, end: nat, fenced: bool)
    requires 0 < mid < mid + 1 < end < |p|
    ensures LinkMove(env, p + q, mid, end, fenced) == AppendMove(LinkMove(env, p, mid, end, fenced), q)
  {
    LinkEmitStable(env, p, q, mid, end);
    Cut(p, q, end + 1);
  }

  /** A move made without waiting is the move made on every longer input, final or not. */
  lemma MoveStable(env: Env, s: Scan, q: string, final: bool)
    requires s.pending != "" && !Forced(env, s) && NextMove(env, s, false).Some?
    ensures NextMove(env, Append(s, q), final) == Some(AppendMove(NextMove(env, s, false).value, q))
  {
    var p := s.pending;
    assert (p + q)[0] == p[0];
    if s.code != "" {
      if s.fenced { FenceStable(env, s, q, final); } else { SpanStable(s, q, final); }
    } else if p[0] == '\\' {
      assert (p + q)[..2] == p[..2] && (p + q)[2..] == p[2..] + q;
    } else if p[0] == '`' || p[0] == '~' {
      TicksStable(s, q, final);
    } else if p[0] == '<' {
      TagStable(env, s, q, final);
    } else if p[0] == '[' {
      LinkStable(env, s, q, final);
    } else {
      assert (p + q)[..1] == p[..1] && (p + q)[1..] == p[1..] + q;
    }
  }

  /** Scanning `s` without the end of the input never hits the buffer bound. */
  predicate Unforced(env: Env, s: Scan)
    decreases |s.pending|, if s.code == "" then 0 else 1
  {
    s.pending == "" || (!Forced(env, s) &&
      match NextMove(env, s, false)
      case None => true
      case Some(m) => Unforced(env, Take(s, m)))
  }

  /** Scanning a piece first and the rest later is scanning both at once. */
  lemma {:induction false} RunSplit(env: Env, s: Scan, q: string, final: bool)
    requires Unforced(env, s)
    ensures Run(env, Append(s, q), final) == Run(env, Append(Run(env, s, false), q), final)
    decreases |s.pending|, if s.code == "" then 0 else 1
  {
    if s.pending != "" && NextMove(env, s, false).Some? {
      var m := NextMove(env, s, false).value;
      MoveStable(env, s, q, final);
      assert Take(Append(s, q), AppendMove(m, q)) == Append(Take(s, m), q);
      RunSplit(env, Take(s, m), q, final);
    }
  }

  function Concat(chunks: seq<string>): string {
    if chunks == [] then "" else chunks[0] + Concat(chunks[1..])
  }

  /** The stream after pushing the chunks one by one, none of them final. */
  function Pushed(env: Env, s: Scan, chunks: seq<string>): Scan
    decreases |chunks|
  {
    if chunks == [] then s else Pushed(env, Run(env, Append(s, chunks[0]), false), chunks[1..])
  }

  /** No push along the way meets a tag or link that reaches the buffer bound unfinished. */
  predicate AllUnforced(env: Env, s: Scan, chunks: seq<string>)
    decreases |chunks|
  {
    chunks == [] ||
    (Unforced(env, Append(s, chunks[0])) && AllUnforced(env, Run(env, Append(s, chunks[0]), false), chunks[1..]))
  }

  lemma PushOne(env: Env, s: Scan, c: string, rest: string)
    requires Unforced(env, Append(s, c))
    ensures Run(env, Append(Run(env, Append(s, c), false), rest), true) == Run(env, Append(s, c + rest), true)
  {
    RunSplit(env, Append(s, c), rest, true);
    assert Append(Append(s, c), rest) == Append(s, c + rest);
  }

  lemma {:induction false} PushedIsWhole(env: Env, s: Scan, chunks: seq<string>, last: string)
    requires AllUnforced(env, s, chunks)
    ensures Run(env, Append(Pushed(env, s, chunks), last), true) == Run(env, Append(s, Concat(chunks) + last), true)
    decreases |chunks|
  {
    if chunks == [] {
      assert "" + last == last;
    } else {
      var c, more := chunks[0], chunks[1..];
      PushedIsWhole(env, Run(env, Append(s, c), false), more, last);
      PushOne(env, s, c, Concat(more) + last);
      assert c + (Concat(more) + last) == Concat(chunks) + last;
    }
  }

  /** Chunk invariance: however a text is cut, the pushed outputs together equal one
      normalization of the whole text. */
  lemma ChunkInvariance(env: Env, chunks: seq<string>, last: string)
    requires AllUnforced(env, START, chunks)
    ensures Run(env, Append(Pushed(env, START, chunks), last), true).out == Normalize(env, Concat(chunks) + last)
  {
    PushedIsWhole(env, START, chunks, last);
    assert Append(START, Concat(chunks) + last) == START.(pending := Concat(chunks) + last);
  }
}
