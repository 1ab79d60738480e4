/** The buffer bound: when a push decides a tag or link that is still arriving, and what
    becomes of the text then. */
module CitationBound {
  import opened CitationRender
  import opened CitationScan
  import opened CitationStable
  import opened CitationStream
  import opened Options

  // ----- pushes that decide as the whole text does -----

  predicate AllBackticks(s: string) { forall c :: c in s ==> c == '`' }

  predicate EndsInText(s: string) { s != "" && s[|s|-1] != ' ' && s[|s|-1] != '\n' }

  /** With `q` still to come, the next move is the one the whole text makes. */
  predicate Decides(env: Env, s: Scan, q: string)
    requires s.pending != ""
  {
    && NextMove(env, s, false).Some?
    && NextMove(env, Append(s, q), true) == Some(AppendMove(NextMove(env, s, false).value, q))
  }

  /** The move swallows what has arrived, the whole text swallows everything, and only
      backticks are still to come. */
  predicate Swallows(env: Env, s: Scan, q: string)
    requires s.pending != ""
  {
    var m := NextMove(env, s, false);
    && m.Some? && m.value.rest == "" && m.value.code == "" && !m.value.fenced && EndsInText(m.value.emit)
    && NextMove(env, Append(s, q), true) == m && AllBackticks(q)
  }

  /** Nothing the scanner decides before `q` arrives spoils the text. */
  predicate Sound(env: Env, s: Scan, q: string)
    decreases |s.pending|, if s.code == "" then 0 else 1
  {
    s.pending == "" || NextMove(env, s, false).None? || Swallows(env, s, q) ||
    (Decides(env, s, q) && Sound(env, Take(s, NextMove(env, s, false).value), q))
  }

  /** Moves that the whole text makes too lead from `s` to `t`. */
  predicate Arrives(env: Env, s: Scan, q: string, t: Scan)
    decreases |s.pending|, if s.code == "" then 0 else 1
  {
    s == t || (s.pending != "" && Decides(env, s, q) && Arrives(env, Take(s, NextMove(env, s, false).value), q, t))
  }

  lemma DecidedStep(env: Env, s: Scan, q: string)
    requires s.pending != "" && Decides(env, s, q)
    ensures var t := Take(s, NextMove(env, s, false).value);
            Run(env, s, false) == Run(env, t, false) && Run(env, Append(s, q), true) == Run(env, Append(t, q), true)
  {
    var m := NextMove(env, s, false).value;
    RunStep(env, s, m, false);
    if Append(s, q).pending != "" { RunStep(env, Append(s, q), AppendMove(m, q), true); }
    assert Take(Append(s, q), AppendMove(m, q)) == Append(Take(s, m), q);
  }

  lemma {:induction false} ArrivesRuns(env: Env, s: Scan, q: string, t: Scan)
    requires Arrives(env, s, q, t)
    ensures Run(env, s, false) == Run(env, t, false) && Run(env, Append(s, q), true) == Run(env, Append(t, q), true)
    decreases |s.pending|, if s.code == "" then 0 else 1
  {
    if s != t {
      DecidedStep(env, s, q);
      ArrivesRuns(env, Take(s, NextMove(env, s, false).value), q, t);
    }
  }

  /** Where a push that is not sound goes wrong. */
  lemma {:induction false} WhereUnsound(env: Env, s: Scan, q: string) returns (t: Scan)
    requires !Sound(env, s, q)
    ensures Arrives(env, s, q, t) && t.pending != "" && NextMove(env, t, false).Some?
    ensures !Decides(env, t, q) && !Swallows(env, t, q)
    decreases |s.pending|, if s.code == "" then 0 else 1
  {
    t := s;
    if Decides(env, s, q) { t := WhereUnsound(env, Take(s, NextMove(env, s, false).value), q); }
  }

  /** Backticks at the end of a line of text are never emitted. */
  lemma OnlyTicksLeft(env: Env, s: Scan)
    requires s.code == "" && !s.fenced && AllBackticks(s.pending) && !FenceStart(s.out)
    ensures Run(env, s, true).out == s.out
  {
    var p := s.pending;
    if p != "" {
      assert p[0] in p;
      AllTicksRun(p, 0);
      assert p[..|p|] == p && p[|p|..] == "" && s.out + "" == s.out;
      RunStep(env, s, Move("", "", p, false), true);
    }
  }

  lemma {:induction false} AllTicksRun(p: string, i: nat)
    requires AllBackticks(p) && i <= |p|
    ensures RunEnd(p, '`', i) == |p|
    decreases |p| - i
  {
    if i < |p| {
      assert p[i] in p;
      AllTicksRun(p, i + 1);
    }
  }

  lemma SwallowedMoves(env: Env, s: Scan, q: string, t: Scan)
    requires s.pending != "" && Swallows(env, s, q) && t == Take(s, NextMove(env, s, false).value)
    ensures Run(env, s, false) == t && Run(env, Append(s, q), true) == t
  {
    var m := NextMove(env, s, false).value;
    RunStep(env, s, m, false);
    RunStep(env, Append(s, q), m, true);
  }

  lemma EmptyRest(env: Env, t: Scan, q: string)
    requires t.pending == "" && t.code == "" && !t.fenced && AllBackticks(q) && !FenceStart(t.out)
    ensures Run(env, Append(t, q), true).out == t.out
  {
    assert Append(t, q).pending == q;
    OnlyTicksLeft(env, Append(t, q));
  }

  lemma SwallowedRun(env: Env, s: Scan, q: string)
    requires s.pending != "" && Swallows(env, s, q)
    ensures Run(env, Append(s, q), true).out == Run(env, Append(Run(env, s, false), q), true).out
  {
    var m := NextMove(env, s, false).value;
    SwallowedMoves(env, s, q, Take(s, m));
    NoFenceAfter(s.out, m.emit);
    EmptyRest(env, Take(s, m), q);
  }

  lemma {:induction false} SoundRun(env: Env, s: Scan, q: string)
    requires Sound(env, s, q)
    ensures Run(env, Append(s, q), true).out == Run(env, Append(Run(env, s, false), q), true).out
    decreases |s.pending|, if s.code == "" then 0 else 1
  {
    if s.pending != "" && NextMove(env, s, false).Some? {
      if Swallows(env, s, q) {
        SwallowedRun(env, s, q);
      } else {
        DecidedStep(env, s, q);
        SoundRun(env, Take(s, NextMove(env, s, false).value), q);
      }
    }
  }

  // ----- all pushes of a text -----

  /** Every push along the way is sound for what is still to come. */
  predicate AllSound(env: Env, s: Scan, chunks: seq<string>, last: string)
    decreases |chunks|
  {
    chunks == [] ||
    (Sound(env, Append(s, chunks[0]), Concat(chunks[1..]) + last)
     && AllSound(env, Run(env, Append(s, chunks[0]), false), chunks[1..], last))
  }

  lemma SoundPush(env: Env, s: Scan, c: string, rest: string)
    requires Sound(env, Append(s, c), rest)
    ensures Run(env, Append(Run(env, Append(s, c), false), rest), true).out == Run(env, Append(s, c + rest), true).out
  {
    SoundRun(env, Append(s, c), rest);
    assert Append(Append(s, c), rest) == Append(s, c + rest);
  }

  lemma {:induction false} PushedSound(env: Env, s: Scan, chunks: seq<string>, last: string)
    requires AllSound(env, s, chunks, last)
    ensures Run(env, Append(Pushed(env, s, chunks), last), true).out
            == Run(env, Append(s, Concat(chunks) + last), true).out
    decreases |chunks|
  {
    if chunks == [] {
      assert "" + last == last;
    } else {
      PushedSound(env, Run(env, Append(s, chunks[0]), false), chunks[1..], last);
      SoundPush(env, s, chunks[0], Concat(chunks[1..]) + last);
      ConcatFirst(chunks, last);
    }
  }

  lemma ConcatFirst(chunks: seq<string>, last: string)
    requires chunks != []
    ensures chunks[0] + (Concat(chunks[1..]) + last) == Concat(chunks) + last
  {}

  /** Sound pushes together give one normalization of the whole text. */
  lemma SoundCut(env: Env, chunks: seq<string>, last: string)
    requires AllSound(env, START, chunks, last)
    ensures Run(env, Append(Pushed(env, START, chunks), last), true).out == Normalize(env, Concat(chunks) + last)
  {
    PushedSound(env, START, chunks, last);
    assert Append(START, Concat(chunks) + last) == START.(pending := Concat(chunks) + last);
  }

  lemma {:induction false} UnforcedIsSound(env: Env, s: Scan, q: string)
    requires Unforced(env, s)
    ensures Sound(env, s, q)
    decreases |s.pending|, if s.code == "" then 0 else 1
  {
    if s.pending != "" && NextMove(env, s, false).Some? {
      MoveStable(env, s, q, true);
      UnforcedIsSound(env, Take(s, NextMove(env, s, false).value), q);
    }
  }

  lemma {:induction false} AllUnforcedIsSound(env: Env, s: Scan, chunks: seq<string>, last: string)
    requires AllUnforced(env, s, chunks)
    ensures AllSound(env, s, chunks, last)
    decreases |chunks|
  {
    if chunks != [] {
      UnforcedIsSound(env, Append(s, chunks[0]), Concat(chunks[1..]) + last);
      AllUnforcedIsSound(env, Run(env, Append(s, chunks[0]), false), chunks[1..], last);
    }
  }

  lemma {:induction false} PushedAfter(env: Env, s: Scan, chunks: seq<string>, c: string)
    ensures Pushed(env, s, chunks + [c]) == Run(env, Append(Pushed(env, s, chunks), c), false)
    decreases |chunks|
  {
    if chunks == [] {
      assert [c][1..] == [] && [] + [c] == [c];
    } else {
      assert (chunks + [c])[0] == chunks[0] && (chunks + [c])[1..] == chunks[1..] + [c];
      PushedAfter(env, Run(env, Append(s, chunks[0]), false), chunks[1..], c);
    }
  }

  // ----- what follows depends on the line only -----

  /** Two scanners with the same text before them, at the same place of a line. */
  predicate Alike(s: Scan, t: Scan) {
    s.pending == t.pending && s.code == t.code && s.fenced == t.fenced && IndentOf(s.out) == IndentOf(t.out)
  }

  lemma AlikeFence(env: Env, s: Scan, t: Scan, final: bool)
    requires s.pending != "" && s.code != "" && Alike(s, t)
    ensures MoveFence(env, s, final) == MoveFence(env, t, final)
  {
    FenceShown(s.out);
    FenceShown(t.out);
  }

  lemma AlikeTicks(s: Scan, t: Scan, final: bool)
    requires s.pending != "" && (s.pending[0] == '`' || s.pending[0] == '~') && Alike(s, t)
    ensures MoveTicks(s, final) == MoveTicks(t, final)
  {
    FenceShown(s.out);
    FenceShown(t.out);
  }

  lemma AlikeTag(env: Env, s: Scan, t: Scan, final: bool)
    requires s.pending != "" && Alike(s, t)
    ensures MoveTag(env, s, final) == MoveTag(env, t, final)
  {}

  lemma AlikeLink(env: Env, s: Scan, t: Scan, final: bool)
    requires s.pending != "" && s.pending[0] == '[' && Alike(s, t)
    ensures MoveLink(env, s, final) == MoveLink(env, t, final)
  {}

  lemma AlikeMove(env: Env, s: Scan, t: Scan, final: bool)
    requires s.pending != "" && Alike(s, t)
    ensures NextMove(env, s, final) == NextMove(env, t, final)
  {
    if s.code != "" {
      AlikeFence(env, s, t, final);
    } else if s.pending[0] == '`' || s.pending[0] == '~' {
      AlikeTicks(s, t, final);
    } else if s.pending[0] == '<' {
      AlikeTag(env, s, t, final);
    } else if s.pending[0] == '[' {
      AlikeLink(env, s, t, final);
    }
  }

  lemma AlikeTake(s: Scan, t: Scan, m: Move)
    requires Alike(s, t)
    ensures Alike(Take(s, m), Take(t, m))
  {
    IndentConcat(Some(0), s.out, m.emit);
    IndentConcat(Some(0), t.out, m.emit);
  }

  /** Nothing emitted is ever taken back. */
  lemma {:induction false} RunGrows(env: Env, s: Scan, final: bool)
    ensures s.out <= Run(env, s, final).out
    decreases |s.pending|, if s.code == "" then 0 else 1
  {
    if s.pending != "" && NextMove(env, s, final).Some? {
      var m := NextMove(env, s, final).value;
      RunStep(env, s, m, final);
      RunGrows(env, Take(s, m), final);
    }
  }

  lemma {:induction false} AlikeRun(env: Env, s: Scan, t: Scan, more: string)
    requires Alike(s, t) && Run(env, s, true).out == s.out + more
    ensures Run(env, t, true).out == t.out + more
    decreases |s.pending|, if s.code == "" then 0 else 1
  {
    if s.pending != "" {
      AlikeMove(env, s, t, true);
      if NextMove(env, s, true).Some? {
        var m := NextMove(env, s, true).value;
        RunStep(env, s, m, true);
        RunStep(env, t, m, true);
        AlikeTake(s, t, m);
        RunGrows(env, Take(s, m), true);
        var rest := Run(env, s, true).out[|s.out + m.emit|..];
        EmitFirst(s.out, m.emit, rest, more);
        AlikeRun(env, Take(s, m), Take(t, m), rest);
      }
    }
  }

  lemma EmitFirst(out: string, emit: string, rest: string, more: string)
    requires out + emit + rest == out + more
    ensures more == emit + rest && forall other: string :: other + emit + rest == other + more
  {
    assert (out + more)[|out|..] == more;
    assert (out + emit + rest)[|out|..] == emit + rest;
  }

  lemma AlikeOutputs(env: Env, s: Scan, t: Scan)
    requires Alike(s, t)
    ensures Run(env, s, true).out == Run(env, t, true).out <==> s.out == t.out
  {
    RunGrows(env, s, true);
    var more := Run(env, s, true).out[|s.out|..];
    AlikeRun(env, s, t, more);
    if s.out + more == t.out + more { assert (s.out + more)[..|s.out|] == (t.out + more)[..|t.out|]; }
  }

  // ----- a cut inside a tag or link -----

  /** The scanner with nothing read or open. */
  predicate Idle(s: Scan) { s.pending == "" && s.code == "" && !s.fenced }

  /** The end of a tag or link that means nothing on its own: its last character, and
      brackets before it. */
  predicate IsTail(x: string) { x != "" && forall c :: c in x ==> c == ']' || c == '>' || c == ')' }

  /** A tag that has arrived up to its tail `x` and reaches the bound. */
  predicate LongTag(bound: nat, open: string, x: string, kind: Kind) {
    && open != "" && open[0] == '<' && |open| >= bound && PrefixOf(open) == Full(kind)
    && IsTail(x) && TagEnd(open + x, 1, None) == Some(|open + x| - 1)
  }

  lemma LongTagOpen(bound: nat, open: string, x: string, kind: Kind)
    requires LongTag(bound, open, x, kind)
    ensures TagEnd(open, 1, None).None?
  {
    if TagEnd(open, 1, None).Some? { TagEndStable(open, x, 1, None); }
  }

  lemma LongTagForced(env: Env, t: Scan, x: string, kind: Kind)
    requires t.code == "" && !t.fenced && LongTag(env.bound, t.pending, x, kind)
    ensures Forced(env, t) && Run(env, t, false) == Emitted(t, UNVERIFIED_SOURCE, "")
  {
    LongTagOpen(env.bound, t.pending, x, kind);
    RunStep(env, t, Move(UNVERIFIED_SOURCE, "", "", false), false);
  }

  lemma LongTagMove(env: Env, t: Scan, open: string, x: string, kind: Kind, rest: string)
    requires t.code == "" && LongTag(0, open, x, kind) && t.pending == open + x + rest
    ensures NextMove(env, t, true) == Some(Move(env.tag(kind, open + x), rest, "", t.fenced))
  {
    assert t.pending == open + (x + rest);
    PrefixStable(open, x + rest, KINDS);
    TagEndStable(open + x, rest, 1, None);
    Cut(open + x, rest, |open + x|);
    assert (open + x)[..|open + x|] == open + x && (open + x)[|open + x|..] + rest == rest;
  }

  lemma TagWhole(env: Env, t: Scan, open: string, x: string, kind: Kind, rest: string)
    requires t.code == "" && !t.fenced && LongTag(0, open, x, kind) && t.pending == open + x + rest
    ensures Run(env, t, true) == Run(env, Emitted(t, env.tag(kind, open + x), rest), true)
  {
    LongTagMove(env, t, open, x, kind, rest);
    RunStep(env, t, Move(env.tag(kind, open + x), rest, "", false), true);
  }

  lemma PlainFirst(env: Env, s: Scan, c: char, rest: string)
    requires s.code == "" && !s.fenced && s.pending == [c] + rest && (c == ']' || c == '>' || c == ')')
    ensures Run(env, s, true) == Run(env, Emitted(s, [c], rest), true)
  {
    assert s.pending[..1] == [c] && s.pending[1..] == rest;
    RunStep(env, s, Move([c], rest, "", false), true);
  }

  lemma {:induction false} TailRun(env: Env, s: Scan, x: string, rest: string)
    requires s.code == "" && !s.fenced && s.pending == x + rest && IsTail(x)
    ensures Run(env, s, true) == Run(env, Emitted(s, x, rest), true)
    decreases |x|
  {
    var c, more := x[0], x[1..];
    assert c in x && s.pending == [c] + (more + rest);
    PlainFirst(env, s, c, more + rest);
    if more == "" {
      assert x == [c] && more + rest == rest;
    } else {
      assert forall d :: d in more ==> d in x;
      TailRun(env, Emitted(s, [c], more + rest), more, rest);
      assert s.out + [c] + more == s.out + x;
    }
  }

  /** After a decision at the bound the tail goes out as text. */
  lemma CutOutputs(env: Env, s: Scan, marker: string, x: string, shown: string, rest: string)
    requires IsTail(x) && EndsInText(shown)
    ensures Run(env, Append(Emitted(s, marker, ""), x + rest), true).out
            == Run(env, Emitted(s, shown, rest), true).out
            <==> shown == marker + x
  {
    var a := Emitted(Emitted(s, marker, ""), x, rest);
    TailRun(env, Append(Emitted(s, marker, ""), x + rest), x, rest);
    assert x[|x|-1] in x && x[|x|-1] != ' ' && x[|x|-1] != '\n';
    NoFenceAfter(s.out + marker, x);
    NoFenceAfter(s.out, shown);
    AlikeOutputs(env, a, Emitted(s, shown, rest));
    SameAfter(s.out, marker, x, shown);
  }

  lemma SameAfter(out: string, a: string, b: string, c: string)
    ensures out + a + b == out + c <==> a + b == c
  {
    if out + a + b == out + c { assert (out + a + b)[|out|..] == a + b && (out + c)[|out|..] == c; }
    if a + b == c { assert out + a + b == out + (a + b); }
  }

  /** A tag that reaches the bound, cut before its tail, agrees with the whole text exactly
      when it would have been shown as the marker and the tail, however the scanner got to it. */
  lemma LongTagCut(env: Env, s: Scan, t: Scan, x: string, kind: Kind, rest: string)
    requires Arrives(env, s, x + rest, t) && t.code == "" && !t.fenced
    requires LongTag(env.bound, t.pending, x, kind) && EndsInText(env.tag(kind, t.pending + x))
    ensures Run(env, Append(Run(env, s, false), x + rest), true).out == Run(env, Append(s, x + rest), true).out
            <==> env.tag(kind, t.pending + x) == UNVERIFIED_SOURCE + x
  {
    ArrivesRuns(env, s, x + rest, t);
    LongTagForced(env, t, x, kind);
    var whole := Append(t, x + rest);
    assert whole.pending == t.pending + x + rest;
    TagWhole(env, whole, t.pending, x, kind, rest);
    CutOutputs(env, t, UNVERIFIED_SOURCE, x, env.tag(kind, t.pending + x), rest);
  }

  /** A link that has arrived up to its tail `x` and reaches the bound. */
  predicate LongLink(bound: nat, open: string, x: string, mid: nat) {
    && open != "" && open[0] == '[' && |open| >= bound && IsTail(x)
    && Closing(open, '[', ']', 0, 0) == Some(mid) && mid + 1 < |open| && open[mid+1] == '('
    && Closing(open[mid+1..] + x, '(', ')', 0, 0) == Some(|open + x| - mid - 2)
  }

  lemma LongLinkOpen(bound: nat, open: string, x: string, mid: nat)
    requires LongLink(bound, open, x, mid)
    ensures 0 < mid && Closing(open[mid+1..], '(', ')', 0, 0).None?
  {
    if Closing(open[mid+1..], '(', ')', 0, 0).Some? { ClosingStable(open[mid+1..], x, '(', ')', 0, 0); }
  }

  lemma LongLinkForced(env: Env, t: Scan, x: string, mid: nat)
    requires t.code == "" && !t.fenced && LongLink(env.bound, t.pending, x, mid)
    ensures Forced(env, t) && Run(env, t, false) == Emitted(t, UNVERIFIED_LINK, "")
  {
    LongLinkOpen(env.bound, t.pending, x, mid);
    RunStep(env, t, Move(UNVERIFIED_LINK, "", "", false), false);
  }

  /** The piece that a whole link is. */
  lemma LongLinkPiece(open: string, x: string, mid: nat, rest: string)
    requires LongLink(0, open, x, mid)
    ensures var (p, w) := (open + x + rest, open + x);
            && p[0] == '[' && LinkPiece(p) == Link(mid, |w| - 1) && Fits(w, Link(mid, |w| - 1))
            && p[1..mid] == w[1..mid] && p[|w|..] == rest
            && p[mid+2..|w|-1] == w[mid+2..|w|-1] && p[mid..|w|] == w[mid..|w|]
  {
    var p, w := open + x + rest, open + x;
    assert p == open + (x + rest);
    ClosingStable(open, x + rest, '[', ']', 0, 0);
    assert p[mid+1..] == open[mid+1..] + x + rest;
    ClosingStable(open[mid+1..] + x, rest, '(', ')', 0, 0);
  }

  /** What a whole link comes out as. */
  function LinkShown(env: Env, w: string, mid: nat): string {
    if w != "" && Fits(w, Link(mid, |w| - 1))
    then LinkText(env, w, Link(mid, |w| - 1), Normalize(env, w[1..mid]))
    else ""
  }

  lemma LongLinkMove(env: Env, t: Scan, open: string, x: string, mid: nat, rest: string)
    requires t.code == "" && !t.fenced && LongLink(0, open, x, mid) && t.pending == open + x + rest
    ensures NextMove(env, t, true) == Some(Move(LinkShown(env, open + x, mid), rest, "", false))
  {
    LongLinkPiece(open, x, mid, rest);
    LinkedPiece(env, t, IndentOf(t.out));
    LinkTextAlike(env, t.pending, open + x, Link(mid, |open + x| - 1), Normalize(env, (open + x)[1..mid]));
  }

  lemma LinkTextAlike(env: Env, p: string, w: string, piece: Piece, body: string)
    requires piece.Link? && Fits(p, piece) && Fits(w, piece)
    requires p[piece.mid+2..piece.end] == w[piece.mid+2..piece.end]
    requires p[piece.mid..piece.end+1] == w[piece.mid..piece.end+1]
    ensures LinkText(env, p, piece, body) == LinkText(env, w, piece, body)
  {}

  lemma LinkWhole(env: Env, t: Scan, open: string, x: string, mid: nat, rest: string)
    requires t.code == "" && !t.fenced && LongLink(0, open, x, mid) && t.pending == open + x + rest
    ensures Run(env, t, true) == Run(env, Emitted(t, LinkShown(env, open + x, mid), rest), true)
  {
    LongLinkMove(env, t, open, x, mid, rest);
    RunStep(env, t, Move(LinkShown(env, open + x, mid), rest, "", false), true);
  }

  /** A link that reaches the bound, cut before its tail, agrees with the whole text exactly
      when it would have been shown as the marker and the tail. */
  lemma LongLinkCut(env: Env, s: Scan, t: Scan, x: string, mid: nat, rest: string)
    requires Arrives(env, s, x + rest, t) && t.code == "" && !t.fenced
    requires LongLink(env.bound, t.pending, x, mid) && EndsInText(LinkShown(env, t.pending + x, mid))
    ensures Run(env, Append(Run(env, s, false), x + rest), true).out == Run(env, Append(s, x + rest), true).out
            <==> LinkShown(env, t.pending + x, mid) == UNVERIFIED_LINK + x
  {
    ArrivesRuns(env, s, x + rest, t);
    LongLinkForced(env, t, x, mid);
    var whole := Append(t, x + rest);
    assert whole.pending == t.pending + x + rest;
    LinkWhole(env, whole, t.pending, x, mid, rest);
    CutOutputs(env, t, UNVERIFIED_LINK, x, LinkShown(env, t.pending + x, mid), rest);
  }

  // ----- long tags and links in a text -----

  /** After sound pushes, one more push `c` and the rest of the text. */
  lemma PushedThen(env: Env, before: seq<string>, c: string, rest: string)
    requires AllSound(env, START, before, c + rest)
    ensures var s := Append(Pushed(env, START, before), c);
            && Pushed(env, START, before + [c]) == Run(env, s, false)
            && Run(env, Append(s, rest), true).out == Normalize(env, Concat(before) + (c + rest))
  {
    PushedAfter(env, START, before, c);
    SoundCut(env, before, c + rest);
    var s := Pushed(env, START, before);
    assert Append(Append(s, c), rest) == Append(s, c + rest);
  }

  /** In a text: wherever a push comes to a long tag that lacks only its tail, the streamed
      text is right if and only if the tag would have been shown as the marker and the tail. */
  lemma LongTagInText(env: Env, before: seq<string>, c: string, t: Scan, x: string, kind: Kind, rest: string)
    requires AllSound(env, START, before, c + (x + rest))
    requires Arrives(env, Append(Pushed(env, START, before), c), x + rest, t) && t.code == "" && !t.fenced
    requires LongTag(env.bound, t.pending, x, kind) && EndsInText(env.tag(kind, t.pending + x))
    ensures Run(env, Append(Pushed(env, START, before + [c]), x + rest), true).out
            == Normalize(env, Concat(before) + (c + (x + rest)))
            <==> env.tag(kind, t.pending + x) == UNVERIFIED_SOURCE + x
  {
    PushedThen(env, before, c, x + rest);
    LongTagCut(env, Append(Pushed(env, START, before), c), t, x, kind, rest);
  }

  /** And so for a long link. */
  lemma LongLinkInText(env: Env, before: seq<string>, c: string, t: Scan, x: string, mid: nat, rest: string)
    requires AllSound(env, START, before, c + (x + rest))
    requires Arrives(env, Append(Pushed(env, START, before), c), x + rest, t) && t.code == "" && !t.fenced
    requires LongLink(env.bound, t.pending, x, mid) && EndsInText(LinkShown(env, t.pending + x, mid))
    ensures Run(env, Append(Pushed(env, START, before + [c]), x + rest), true).out
            == Normalize(env, Concat(before) + (c + (x + rest)))
            <==> LinkShown(env, t.pending + x, mid) == UNVERIFIED_LINK + x
  {
    PushedThen(env, before, c, x + rest);
    LongLinkCut(env, Append(Pushed(env, START, before), c), t, x, mid, rest);
  }

  predicate IsTag(s: string) { |s| >= 2 && s[0] == '<' && s[|s|-1] == '>' }

  /** Registered sources are shown as a tag, everything else as the marker. */
  ghost predicate ShowsTags(env: Env) {
    && (forall kind, tag :: env.tag(kind, tag) == UNVERIFIED_SOURCE || IsTag(env.tag(kind, tag)))
    && (forall target :: env.link(target).Some? ==> IsTag(env.link(target).value))
  }

  lemma TagIsNoMarker(env: Env, kind: Kind, w: string, x: string)
    requires ShowsTags(env) && IsTail(x)
    ensures EndsInText(env.tag(kind, w)) && env.tag(kind, w) != UNVERIFIED_SOURCE + x
  {
    assert (UNVERIFIED_SOURCE + x)[0] == UNVERIFIED_SOURCE[0] != '<';
    assert |UNVERIFIED_SOURCE + x| > |UNVERIFIED_SOURCE|;
    assert UNVERIFIED_SOURCE[|UNVERIFIED_SOURCE|-1] != ' ' && UNVERIFIED_SOURCE[|UNVERIFIED_SOURCE|-1] != '\n';
  }

  /** So a long tag always has a cut that spoils the text. */
  lemma LongTagSpoils(env: Env, s: Scan, t: Scan, x: string, kind: Kind, rest: string)
    requires ShowsTags(env) && Arrives(env, s, x + rest, t) && t.code == "" && !t.fenced
    requires LongTag(env.bound, t.pending, x, kind)
    ensures Run(env, Append(Run(env, s, false), x + rest), true).out != Run(env, Append(s, x + rest), true).out
  {
    TagIsNoMarker(env, kind, t.pending + x, x);
    LongTagCut(env, s, t, x, kind, rest);
  }

  lemma LinkIsNoMarker(env: Env, open: string, x: string, mid: nat)
    requires ShowsTags(env) && LongLink(0, open, x, mid)
    ensures EndsInText(LinkShown(env, open + x, mid)) && LinkShown(env, open + x, mid) != UNVERIFIED_LINK + x
  {
    var w := open + x;
    LongLinkPiece(open, x, mid, "");
    var shown, target := LinkShown(env, w, mid), Target(env, w, Link(mid, |w| - 1));
    assert (UNVERIFIED_LINK + x)[0] == UNVERIFIED_LINK[0];
    assert (UNVERIFIED_LINK + x)[|UNVERIFIED_LINK + x|-1] == x[|x|-1] == w[|w|-1] == ')';
    if "#" <= target {
      assert shown[0] == '[' && shown[|shown|-1] == ')';
    } else if env.link(target).None? {
      assert shown[|shown|-1] == UNVERIFIED_LINK[|UNVERIFIED_LINK|-1];
    }
  }

  /** And so has a long link. */
  lemma LongLinkSpoils(env: Env, s: Scan, t: Scan, x: string, mid: nat, rest: string)
    requires ShowsTags(env) && Arrives(env, s, x + rest, t) && t.code == "" && !t.fenced
    requires LongLink(env.bound, t.pending, x, mid)
    ensures Run(env, Append(Run(env, s, false), x + rest), true).out != Run(env, Append(s, x + rest), true).out
  {
    LinkIsNoMarker(env, t.pending, x, mid);
    LongLinkCut(env, s, t, x, mid, rest);
  }

  /** For every bound there is a text and a cut for which the stream and the whole text
      disagree: an unregistered tag longer than the bound, cut before its `>`. */
  lemma BeyondTheBound(env: Env, pad: string)
    requires |pad| >= 1 && |pad| + 3 >= env.bound && forall c :: c in pad ==> c == ' '
    requires env.tag(Kb, "<kb" + pad + ">") == UNVERIFIED_SOURCE
    ensures Run(env, Append(Pushed(env, START, ["<kb" + pad]), ">"), true).out == UNVERIFIED_SOURCE + ">"
    ensures Normalize(env, "<kb" + pad + ">") == UNVERIFIED_SOURCE
    ensures !AllUnforced(env, START, ["<kb" + pad])
  {
    var open := "<kb" + pad;
    var s := Append(START, open);
    PadTag(env.bound, open, pad);
    assert s.pending == open;
    LongTagForced(env, s, ">", Kb);
    PushedAfter(env, START, [], open);
    assert [] + [open] == [open];
    var t := Append(Emitted(s, UNVERIFIED_SOURCE, ""), ">");
    assert t.pending == ">" + "" && t.out == UNVERIFIED_SOURCE;
    PlainFirst(env, t, '>', "");
    TagWhole(env, START.(pending := open + ">"), open, ">", Kb, "");
  }

  lemma PadTag(bound: nat, open: string, pad: string)
    requires |pad| >= 1 && (forall c :: c in pad ==> c == ' ')
    requires open == "<kb" + pad && |open| >= bound
    ensures LongTag(bound, open, ">", Kb)
  {
    assert open == "<kb" + pad + "";
    assert pad[0] in pad;
    PadPrefix(open, pad, "");
    assert forall k :: 1 <= k < |open| ==> open[k] == 'k' || open[k] == 'b' || open[k] in pad;
    TagEndAfter(open + ">", 1);
  }

  lemma PadPrefix(p: string, pad: string, rest: string)
    requires p == "<kb" + pad + rest && |pad| >= 1 && pad[0] == ' '
    ensures PrefixOf(p) == Full(Kb) && p[0] == '<'
  {
    assert p[0] == '<' && p[1] == 'k' && p[2] == 'b' && p[3] == ' ';
    assert Lower(p)[1] == 'k';
    assert !IsPartial(p, Cite) by { assert Opening(Cite)[1] == 'c'; }
    assert !IsFull(p, Cite) by {
      if |p| > 5 {
        assert Lower(p[..5])[1] == 'k' && Opening(Cite)[1] == 'c';
      }
    }
    assert Lower(p[..3]) == "<kb";
    assert IsFull(p, Kb) && !IsPartial(p, Kb);
    assert PrefixAmong(p, KINDS[1..]) == Full(Kb);
  }

  lemma {:induction false} TagEndAfter(p: string, i: nat)
    requires i < |p| && p[|p|-1] == '>' && forall k :: i <= k < |p| - 1 ==> p[k] !in "'\">"
    ensures TagEnd(p, i, None) == Some(|p| - 1)
    decreases |p| - i
  {
    if i < |p| - 1 { TagEndAfter(p, i + 1); }
  }
}
