/** The stateful citation stream, its refinement of the scanner, and the guarantees
    that hold for the streamed events. */
module CitationStream {
  import opened CitationScan
  import opened CitationStable
  import opened Options

  // ----- the line tail kept between pushes -----

  lemma {:induction false} LastLineConcat(a: string, b: string)
    ensures LastLine(a + b) == if '\n' in b then LastLine(b) else LastLine(a) + b
  {
    if b == "" {
      assert a + b == a;
    } else {
      var n := |b| - 1;
      var init, c := b[..n], b[n];
      assert b == init + [c] && a + b == a + init + [c];
      LastLineConcat(a, init);
      LastLineSnoc(init, c);
      LastLineSnoc(a + init, c);
    }
  }

  lemma LastLineSnoc(s: string, c: char)
    ensures LastLine(s + [c]) == if c == '\n' then "" else LastLine(s) + [c]
  {
    assert (s + [c])[..|s + [c]|-1] == s;
  }

  /** The last four bytes of the current line. */
  function Tail(s: string): string {
    var line := LastLine(s);
    if |line| > 4 then line[|line|-4..] else line
  }

  lemma TailIsLine(s: string)
    ensures LastLine(Tail(s)) == Tail(s)
  {
    LineHasNoNewline(s);
    NoNewline(Tail(s));
  }

  lemma {:induction false} LineHasNoNewline(s: string)
    ensures '\n' !in LastLine(s)
  {
    if s != "" { LineHasNoNewline(s[..|s|-1]); }
  }

  lemma {:induction false} NoNewline(s: string)
    requires '\n' !in s
    ensures LastLine(s) == s
  {
    if s != "" { NoNewline(s[..|s|-1]); }
  }

  lemma ShortLineTail(a: string, b: string)
    requires '\n' !in b
    ensures LastLine(a + b) == LastLine(a) + b && LastLine(Tail(a) + b) == Tail(a) + b
  {
    LastLineConcat(a, b);
    LastLineConcat(Tail(a), b);
    TailIsLine(a);
  }

  /** Four bytes are enough to recognise a fence position ... */
  lemma TailShowsFence(a: string, b: string)
    ensures FenceStart(Tail(a) + b) <==> FenceStart(a + b)
  {
    if '\n' in b {
      LastLineConcat(a, b);
      LastLineConcat(Tail(a), b);
    } else {
      ShortLineTail(a, b);
    }
  }

  /** ... and to go on from there. */
  lemma TailContinues(a: string, b: string)
    ensures Tail(Tail(a) + b) == Tail(a + b)
  {
    if '\n' in b {
      LastLineConcat(a, b);
      LastLineConcat(Tail(a), b);
    } else {
      ShortLineTail(a, b);
      if |LastLine(a)| > 4 { LastFour(LastLine(a), b); }
    }
  }

  lemma LastFour(line: string, b: string)
    requires |line| > 4
    ensures (line[|line|-4..] + b)[|b|..] == (line + b)[|line|+|b|-4..]
  {}

  method AtFence(lineTail: string, ghost before: string, emitted: string) returns (fence: bool)
    requires lineTail == Tail(before)
    ensures fence <==> FenceStart(before + emitted)
  {
    TailShowsFence(before, emitted);
    fence := FenceStart(lineTail + emitted);
  }

  method NextTail(lineTail: string, ghost before: string, emitted: string) returns (t: string)
    requires lineTail == Tail(before)
    ensures t == Tail(before + emitted)
  {
    TailContinues(before, emitted);
    t := Tail(lineTail + emitted);
  }

  // ----- the index loops -----

  method CodeSpanEnd(p: string, width: nat, final: bool) returns (r: Option<nat>)
    ensures r == SpanEnd(p, width, 0, final)
  {
    var i := 0;
    while i < |p|
      invariant 0 <= i <= |p|
      invariant SpanEnd(p, width, 0, final) == SpanEnd(p, width, i, final)
    {
      if p[i] != '`' {
        i := i + 1;
        continue;
      }
      var start := i;
      while i < |p| && p[i] == '`'
        invariant start <= i <= |p|
        invariant i > start || p[i] == '`'
        invariant RunEnd(p, '`', start) == RunEnd(p, '`', i)
      {
        i := i + 1;
      }
      if i == |p| && !final { return None; }
      if i - start == width { return Some(i); }
    }
    return None;
  }

  method FindTagEnd(p: string) returns (r: Option<nat>)
    requires p != ""
    ensures r == TagEnd(p, 1, None)
  {
    var quote: Option<char> := None;
    var i := 1;
    while i < |p|
      invariant 1 <= i <= |p|
      invariant TagEnd(p, 1, None) == TagEnd(p, i, quote)
    {
      var c := p[i];
      i := i + 1;
      if quote.Some? {
        if c == quote.value { quote := None; }
        continue;
      }
      if c == '\'' || c == '"' { quote := Some(c); }
      else if c == '>' { return Some(i - 1); }
    }
    return None;
  }

  method FindClosing(p: string, open: char, close: char) returns (r: Option<nat>)
    ensures r == Closing(p, open, close, 0, 0)
  {
    var level, i := 0, 0;
    while i < |p|
      invariant 0 <= i
      invariant Closing(p, open, close, 0, 0) == Closing(p, open, close, i, level)
      decreases |p| - i
    {
      if p[i] == '\\' {
        i := i + 2;
        continue;
      }
      if p[i] == open { level := level + 1; }
      if p[i] == close {
        level := level - 1;
        if level == 0 { return Some(i); }
      }
      i := i + 1;
    }
    return None;
  }

  method FindPrefix(p: string) returns (r: TagPrefix)
    ensures r == PrefixOf(p)
  {
    assert KINDS[0..] == KINDS;
    for i := 0 to |KINDS|
      invariant PrefixOf(p) == PrefixAmong(p, KINDS[i..])
    {
      assert KINDS[i..][1..] == KINDS[i+1..];
      if IsPartial(p, KINDS[i]) { return Partial(KINDS[i]); }
      if IsFull(p, KINDS[i]) { return Full(KINDS[i]); }
    }
    return NoTag;
  }

  // ----- the stream -----

  class Stream {
    var pending: string
    var code: string
    var fenced: bool
    var lineTail: string
    ghost var out: string  // everything pushed out so far

    ghost predicate Valid()
      reads this
    {
      lineTail == Tail(out)
    }

    ghost function View(): Scan
      reads this
    {
      Scan(pending, code, fenced, out)
    }

    constructor ()
      ensures Valid() && View() == START
    {
      pending, code, fenced, lineTail, out := "", "", false, "", "";
    }

    /** Emits what the scanner decides on the text so far, and keeps the rest. */
    method Push(env: Env, text: string, final: bool) returns (emitted: string)
      requires Valid()
      modifies this
      ensures Valid() && out == old(out) + emitted
      ensures View() == Run(env, Append(old(View()), text), final)
      decreases |pending| + |text|, 3
    {
      var s;
      emitted, s := Drive(env, Scan(pending + text, code, fenced, ""), lineTail, out, final);
      var t := NextTail(lineTail, out, emitted);
      pending, code, fenced, lineTail := s.pending, s.code, s.fenced, t;
      out := out + emitted;
    }
  }

  /** The loop of `push`; `before` is what earlier pushes emitted, known here by its tail. */
  method Drive(env: Env, start: Scan, lineTail: string, ghost before: string, final: bool)
    returns (emitted: string, s: Scan)
    requires lineTail == Tail(before)
    ensures s.(out := before + emitted) == Run(env, start.(out := before), final)
    decreases |start.pending|, 2
  {
    ghost var goal := Run(env, start.(out := before), final);
    emitted, s := "", start;
    assert before + emitted == before;
    while s.pending != ""
      invariant |s.pending| <= |start.pending|
      invariant goal == Run(env, s.(out := before + emitted), final)
      decreases |s.pending|, if s.code == "" then 0 else 1
    {
      ghost var total := before + emitted;
      if s.code == "" && Plain(s.pending[0]) {
        var i := PlainEnd(s.pending);
        PlainRun(env, s.(out := total), i, final);
        assert total + s.pending[..i] == before + (emitted + s.pending[..i]);
        emitted := emitted + s.pending[..i];
        s := s.(pending := s.pending[i..]);
      } else {
        var fence := AtFence(lineTail, before, emitted);
        var wait, m := Decide(env, s, fence, total, final);
        if wait { return; }
        RunStep(env, s.(out := total), m, final);
        assert total + m.emit == before + (emitted + m.emit);
        emitted := emitted + m.emit;
        s := s.(pending := m.rest, code := m.code, fenced := m.fenced);
      }
    }
  }

  lemma RunStep(env: Env, s: Scan, m: Move, final: bool)
    requires s.pending != "" && NextMove(env, s, final) == Some(m)
    ensures Run(env, s, final) == Run(env, Take(s, m), final)
    ensures Progresses(s, m)
  {}

  predicate Plain(c: char) { c != '\\' && c != '`' && c != '~' && c != '<' && c != '[' }

  method PlainEnd(p: string) returns (i: nat)
    requires p != "" && Plain(p[0])
    ensures 0 < i <= |p| && forall k :: 0 <= k < i ==> Plain(p[k])
  {
    i := 1;
    while i < |p| && Plain(p[i])
      invariant 0 < i <= |p| && forall k :: 0 <= k < i ==> Plain(p[k])
    {
      i := i + 1;
    }
  }

  /** A stretch of ordinary text goes out at once, as if byte by byte. */
  lemma {:induction false} PlainRun(env: Env, s: Scan, n: nat, final: bool)
    requires s.code == "" && n <= |s.pending| && forall k :: 0 <= k < n ==> Plain(s.pending[k])
    ensures Run(env, s, final) == Run(env, Scan(s.pending[n..], "", s.fenced, s.out + s.pending[..n]), final)
    decreases n
  {
    if n == 0 {
      assert Scan(s.pending[0..], "", s.fenced, s.out + s.pending[..0]) == s;
    } else {
      var t := Scan(s.pending[1..], "", s.fenced, s.out + s.pending[..1]);
      PlainRun(env, t, n - 1, final);
      assert t.pending[n-1..] == s.pending[n..];
      assert t.out + t.pending[..n-1] == s.out + s.pending[..n];
    }
  }

  /** One decision of the scanner; `fenceStart` is known from the line tail. */
  method Decide(env: Env, s: Scan, fenceStart: bool, ghost out: string, final: bool) returns (wait: bool, m: Move)
    requires s.pending != "" && (fenceStart <==> FenceStart(out))
    ensures wait <==> NextMove(env, s.(out := out), final).None?
    ensures !wait ==> Some(m) == NextMove(env, s.(out := out), final)
    decreases |s.pending|, 1
  {
    var p := s.pending;
    m := Move("", p, s.code, s.fenced);
    wait := false;
    if s.code != "" {
      if s.fenced { wait, m := DecideFence(env, s, fenceStart, out, final); }
      else { wait, m := DecideSpan(s.(out := ""), out, final); }
    } else if p[0] == '\\' {
      if |p| == 1 && !final { return true, m; }
      var n := if |p| < 2 then |p| else 2;
      assert |p| == 1 ==> p[..n] == p && p[n..] == "";
      m := Move(p[..n], p[n..], "", s.fenced);
    } else if p[0] == '`' || p[0] == '~' {
      wait, m := DecideTicks(s, fenceStart, out, final);
    } else if p[0] == '<' {
      wait, m := DecideTag(env, s, out, final);
    } else if p[0] == '[' {
      wait, m := DecideLink(env, s, out, final);
    } else {
      m := Move(p[..1], p[1..], "", s.fenced);
    }
  }

  method CodeEnd(p: string, c: char) returns (n: nat)
    ensures n == RunEnd(p, c, 0)
  {
    n := 0;
    while n < |p| && p[n] == c
      invariant 0 <= n <= |p|
      invariant RunEnd(p, c, 0) == RunEnd(p, c, n)
    {
      n := n + 1;
    }
  }

  method DecideFence(env: Env, s: Scan, fenceStart: bool, ghost out: string, final: bool) returns (wait: bool, m: Move)
    requires s.pending != "" && s.code != "" && (fenceStart <==> FenceStart(out))
    ensures wait <==> MoveFence(env, s.(out := out), final).None?
    ensures !wait ==> Some(m) == MoveFence(env, s.(out := out), final)
  {
    var p := s.pending;
    m := Move("", p, s.code, s.fenced);
    var end := IndexFrom(p, '\n', 0);
    if end == |p| && !final { return true, m; }
    if end < |p| { end := end + 1; }
    var line := p[..end];
    var trimmed := line[Leading(line)..];
    var code, fenced := s.code, true;
    if fenceStart && |line| - |trimmed| <= 3 && code <= trimmed {
      var n := CodeEnd(trimmed, code[0]);
      if env.blank(trimmed[n..]) { code, fenced := "", false; }
    }
    return false, Move(line, p[end..], code, fenced);
  }

  method DecideSpan(s: Scan, ghost out: string, final: bool) returns (wait: bool, m: Move)
    requires s.pending != "" && s.code != ""
    ensures wait <==> MoveSpan(s.(out := out), final).None?
    ensures !wait ==> Some(m) == MoveSpan(s.(out := out), final)
  {
    var end := CodeSpanEnd(s.pending, |s.code|, final);
    if end.Some? { return false, Move(s.code + s.pending[..end.value], s.pending[end.value..], "", false); }
    return !final, Move(s.code, s.pending, "", s.fenced);
  }

  method DecideTicks(s: Scan, fenceStart: bool, ghost out: string, final: bool) returns (wait: bool, m: Move)
    requires s.pending != "" && (s.pending[0] == '`' || s.pending[0] == '~') && (fenceStart <==> FenceStart(out))
    ensures wait <==> MoveTicks(s.(out := out), final).None?
    ensures !wait ==> Some(m) == MoveTicks(s.(out := out), final)
  {
    var p := s.pending;
    m := Move("", p, s.code, s.fenced);
    var n := 0;
    while n < |p| && p[n] == p[0]
      invariant 0 <= n <= |p|
      invariant RunEnd(p, p[0], 0) == RunEnd(p, p[0], n)
    {
      n := n + 1;
    }
    if n == |p| && !final { return true, m; }
    var fenced := n >= 3 && fenceStart;
    if fenced {
      var end := IndexFrom(p, '\n', n);
      if end == |p| && !final { return true, m; }
      if p[0] == '`' && '`' in p[n..end] { fenced := false; }
    }
    if p[0] == '~' && !fenced { return false, Move(p[..n], p[n..], "", s.fenced); }
    return false, Move(if fenced then p[..n] else "", p[n..], p[..n], fenced);
  }

  method DecideTag(env: Env, s: Scan, ghost out: string, final: bool) returns (wait: bool, m: Move)
    requires s.pending != ""
    ensures wait <==> MoveTag(env, s.(out := out), final).None?
    ensures !wait ==> Some(m) == MoveTag(env, s.(out := out), final)
  {
    var p := s.pending;
    m := Move("", p, s.code, s.fenced);
    var prefix := FindPrefix(p);
    if prefix.Partial? && !final { return true, m; }
    if prefix.Partial? && |p| < |Opening(prefix.kind)| { return false, Move(p, "", "", s.fenced); }
    if prefix.NoTag? { return false, Move("<", p[1..], "", s.fenced); }
    var end := FindTagEnd(p);
    if end.None? && !final && |p| < env.bound { return true, m; }
    if end.None? { return false, Move(UNVERIFIED_SOURCE, "", "", s.fenced); }
    return false, Move(env.tag(prefix.kind, p[..end.value+1]), p[end.value+1..], "", s.fenced);
  }

  method DecideLink(env: Env, s: Scan, ghost out: string, final: bool) returns (wait: bool, m: Move)
    requires s.pending != "" && s.pending[0] == '['
    ensures wait <==> MoveLink(env, s.(out := out), final).None?
    ensures !wait ==> Some(m) == MoveLink(env, s.(out := out), final)
    decreases |s.pending|, 0, 1
  {
    var p := s.pending;
    m := Move("", p, s.code, s.fenced);
    var mid := FindClosing(p, '[', ']');
    if mid.None? {
      if !final && |p| < env.bound { return true, m; }
      return false, Move("[", p[1..], "", s.fenced);
    }
    var endLabel := mid.value;
    if endLabel + 1 == |p| && !final { return true, m; }
    if endLabel + 1 >= |p| || p[endLabel+1] != '(' { return false, Move("[", p[1..], "", s.fenced); }
    var endLink := FindClosing(p[endLabel+1..], '(', ')');
    if endLink.None? && !final && |p| < env.bound { return true, m; }
    if endLink.None? { return false, Move(UNVERIFIED_LINK, "", "", s.fenced); }
    m := BuildLink(env, p, endLabel, endLabel + 1 + endLink.value, s.fenced);
    return false, m;
  }

  method BuildLink(env: Env, p: string, mid: nat, end: nat, fenced: bool) returns (m: Move)
    requires 0 < mid < mid + 1 < end < |p|
    ensures m == LinkMove(env, p, mid, end, fenced)
    decreases |p|, 0, 0
  {
    var link := env.dest(p[mid+2..end]);
    m := Move("", p[end+1..], "", fenced);
    if "#" <= link {
      var text := NormalizeText(env, p[1..mid]);
      m := m.(emit := "[" + text + p[mid..end+1]);
    } else if env.link(link).Some? {
      m := m.(emit := env.link(link).value);
    } else {
      var text := NormalizeText(env, p[1..mid]);
      m := m.(emit := text + UNVERIFIED_LINK);
    }
  }

  /** `normalizeCitations`. */
  method NormalizeText(env: Env, text: string) returns (result: string)
    ensures result == Normalize(env, text)
    decreases |text|, 4
  {
    var stream := new Stream();
    result := stream.Push(env, text, true);
    assert Append(START, text) == START.(pending := text);
  }
}
