/** What the rewriter guarantees to readers of the stream: streamed and saved answers
    agree, ordinary text passes through, and where both stop holding. */
module CitationGuarantees {
  import opened CitationBound
  import opened CitationRender
  import opened CitationSafe
  import opened CitationScan
  import opened CitationStable
  import opened CitationStream
  import opened Options

  // ----- a final push leaves nothing behind -----

  lemma FinalMoves(env: Env, s: Scan)
    requires s.pending != ""
    ensures NextMove(env, s, true).Some?
  {}

  lemma {:induction false} FinalConsumesAll(env: Env, s: Scan)
    ensures Run(env, s, true).pending == ""
    decreases |s.pending|, if s.code == "" then 0 else 1
  {
    if s.pending != "" {
      FinalMoves(env, s);
      var m := NextMove(env, s, true).value;
      RunStep(env, s, m, true);
      FinalConsumesAll(env, Take(s, m));
    }
  }

  // ----- text without citations or links -----

  predicate CitationFree(text: string) { '<' !in text && '[' !in text }

  /** The inline code run that is open and not emitted yet. */
  function OpenSpan(s: Scan): string { if s.fenced then "" else s.code }

  /** Emitted, withheld and unread text together. */
  function Held(s: Scan): string { s.out + OpenSpan(s) + s.pending }

  ghost predicate PlainScan(s: Scan) {
    CitationFree(s.pending) && AllBackticks(OpenSpan(s)) && (s.code == "" ==> !s.fenced)
  }

  /** A move that hands out the open span or nothing of it, then a prefix of the text. */
  ghost predicate Conserves(s: Scan, m: Move) {
    s.out + OpenSpan(s) + s.pending == s.out + m.emit + OpenSpan(Take(s, m)) + m.rest
  }

  lemma FenceConserves(env: Env, s: Scan, final: bool)
    requires s.pending != "" && s.code != "" && s.fenced && MoveFence(env, s, final).Some?
    ensures Conserves(s, MoveFence(env, s, final).value)
  {
    var m := MoveFence(env, s, final).value;
    assert m.emit + m.rest == s.pending;
    ConservesEmpty(s, m);
  }

  lemma ConservesEmpty(s: Scan, m: Move)
    requires OpenSpan(s) == "" && OpenSpan(Take(s, m)) == "" && s.pending == m.emit + m.rest
    ensures Conserves(s, m)
  {
    Regroup(s.out, m.emit, m.rest);
  }

  lemma SpanConserves(s: Scan, final: bool)
    requires s.pending != "" && s.code != "" && !s.fenced && MoveSpan(s, final).Some?
    ensures Conserves(s, MoveSpan(s, final).value)
  {
    var m := MoveSpan(s, final).value;
    assert m.emit + m.rest == s.code + s.pending;
  }

  lemma TicksConserve(s: Scan, final: bool)
    requires s.pending != "" && s.code == "" && (s.pending[0] == '`' || s.pending[0] == '~')
    requires MoveTicks(s, final).Some? && !s.fenced
    ensures Conserves(s, MoveTicks(s, final).value)
    ensures var m := MoveTicks(s, final).value; m.code != "" && !m.fenced ==> AllBackticks(m.code)
  {
    var m, n := MoveTicks(s, final).value, RunEnd(s.pending, s.pending[0], 0);
    assert s.pending == s.pending[..n] + s.pending[n..];
    assert m.emit + OpenSpan(Take(s, m)) == s.pending[..n];
    RunIsUniform(s.pending, s.pending[0], 0);
  }

  lemma FreeSuffix(p: string, k: nat)
    requires CitationFree(p) && k <= |p|
    ensures CitationFree(p[k..])
  {}

  lemma MoveHolds(env: Env, s: Scan, final: bool)
    requires s.pending != "" && PlainScan(s) && NextMove(env, s, final).Some?
    ensures var t := Take(s, NextMove(env, s, final).value); PlainScan(t) && Held(t) == Held(s)
  {
    var p, m := s.pending, NextMove(env, s, final).value;
    MoveConserves(env, s, final);
    MoveRest(env, s, final);
    assert Held(Take(s, m)) == s.out + m.emit + OpenSpan(Take(s, m)) + m.rest;
  }

  lemma MoveConserves(env: Env, s: Scan, final: bool)
    requires s.pending != "" && PlainScan(s) && NextMove(env, s, final).Some?
    ensures var m := NextMove(env, s, final).value;
            Conserves(s, m) && AllBackticks(OpenSpan(Take(s, m))) && (m.code == "" ==> !m.fenced)
  {
    var p := s.pending;
    assert p[0] in p;
    if s.code != "" {
      if s.fenced { FenceConserves(env, s, final); } else { SpanConserves(s, final); }
    } else if p[0] == '`' || p[0] == '~' {
      TicksConserve(s, final);
    } else {
      var m := NextMove(env, s, final).value;
      assert m.emit + m.rest == p;
    }
  }

  lemma MoveRest(env: Env, s: Scan, final: bool)
    requires s.pending != "" && PlainScan(s) && NextMove(env, s, final).Some?
    ensures CitationFree(NextMove(env, s, final).value.rest)
  {
    var p, rest := s.pending, NextMove(env, s, final).value.rest;
    assert p[0] in p;
    if s.code != "" && s.fenced {
      FenceRest(env, s, final);
    } else if s.code != "" {
      SpanRest(s, final);
    } else if p[0] == '\\' || p[0] == '`' || p[0] == '~' {
      assert |rest| <= |p| && (rest == "" || rest == p[2..] || rest == p[RunEnd(p, p[0], 0)..]);
    } else {
      assert rest == p[1..];
    }
  }

  lemma FenceRest(env: Env, s: Scan, final: bool)
    requires s.pending != "" && s.code != "" && CitationFree(s.pending) && MoveFence(env, s, final).Some?
    ensures CitationFree(MoveFence(env, s, final).value.rest)
  {
    var p := s.pending;
    var nl := IndexFrom(p, '\n', 0);
    FreeSuffix(p, if nl == |p| then nl else nl + 1);
  }

  lemma SpanRest(s: Scan, final: bool)
    requires s.pending != "" && s.code != "" && CitationFree(s.pending) && MoveSpan(s, final).Some?
    ensures CitationFree(MoveSpan(s, final).value.rest)
  {
    var end := SpanEnd(s.pending, |s.code|, 0, final);
    if end.Some? { FreeSuffix(s.pending, end.value); }
  }

  lemma {:induction false} RunHolds(env: Env, s: Scan)
    requires PlainScan(s)
    ensures var t := Run(env, s, true); PlainScan(t) && Held(t) == Held(s)
    decreases |s.pending|, if s.code == "" then 0 else 1
  {
    if s.pending != "" {
      FinalMoves(env, s);
      var m := NextMove(env, s, true).value;
      RunStep(env, s, m, true);
      MoveHolds(env, s, true);
      RunHolds(env, Take(s, m));
    }
  }

  lemma FreePiece(env: Env, indent: Option<nat>, p: string)
    requires p != "" && CitationFree(p)
    ensures var piece := PieceAt(env, indent, p);
            && (piece.Verbatim? || piece.Ticks?) && CitationFree(Rest(p, piece))
            && forall shown :: PieceText(env, p, piece, shown) + Rest(p, piece) == p
  {
    assert p[0] in p;
    var piece := PieceAt(env, indent, p);
    FreeSuffix(p, piece.size);
    assert p[..piece.size] + p[piece.size..] == p;
  }

  lemma {:induction false} RenderFree(env: Env, indent: Option<nat>, p: string)
    requires CitationFree(p)
    ensures Render(env, indent, p) == p
    decreases |p|
  {
    if p != "" {
      var piece := PieceAt(env, indent, p);
      FreePiece(env, indent, p);
      RenderFree(env, IndentBehind(env, indent, p, piece), Rest(p, piece));
      assert PieceText(env, p, piece, RenderLabel(env, p, piece)) + Rest(p, piece) == p;
    }
  }

  /** Text without tags and links is meant to come out as it went in. It loses at most a
      trailing backtick run, and loses one exactly when it ends in a run that opens nothing. */
  lemma CitationFreeText(env: Env, text: string)
    requires CitationFree(text)
    ensures Render(env, Some(0), text) == text
    ensures Normalize(env, text) <= text && AllBackticks(text[|Normalize(env, text)|..])
    ensures Normalize(env, text) == text <==> !EndsInTicks(env, Some(0), text)
  {
    var s := START.(pending := text);
    var t := Run(env, s, true);
    RunHolds(env, s);
    FinalConsumesAll(env, s);
    assert Held(s) == text;
    assert Held(t) == t.out + OpenSpan(t);
    assert text[|t.out|..] == OpenSpan(t);
    RenderFree(env, Some(0), text);
    RightUnlessEndsInTicks(env, text);
  }

  lemma TrailingBacktickIsLost(env: Env)
    ensures Normalize(env, "a`") == "a" && Render(env, Some(0), "a`") == "a`" && EndsInTicks(env, Some(0), "a`")
  {
    var s := START.(pending := "a`");
    var m := Move("a", "`", "", false);
    assert "a`"[..1] == "a" && "a`"[1..] == "`";
    RunStep(env, s, m, true);
    var s1 := Take(s, m);
    assert s1 == Scan("`", "", false, "a");
    assert RunEnd("`", '`', 0) == 1 by { assert RunEnd("`", '`', 1) == 1; }
    assert "`"[..1] == "`" && "`"[1..] == "";
    RunStep(env, s1, Move("", "", "`", false), true);
    assert Take(s1, Move("", "", "`", false)) == Scan("", "`", false, "a");
    RenderFree(env, Some(0), "a`");
    RightUnlessEndsInTicks(env, "a`");
  }

  /** A text that is one piece. */
  lemma OnePiece(env: Env, p: string)
    requires p != "" && Rest(p, PieceAt(env, Some(0), p)) == "" && !PieceAt(env, Some(0), p).Ticks?
    ensures var piece := PieceAt(env, Some(0), p);
            && Normalize(env, p) == PieceText(env, p, piece, Label(env, p, piece))
            && Render(env, Some(0), p) == PieceText(env, p, piece, RenderLabel(env, p, piece))
  {
    var s, piece := START.(pending := p), PieceAt(env, Some(0), p);
    var n := PieceRun(env, s, Some(0));
    LeadsRun(env, s, Behind(env, s, piece), n);
    var text := PieceText(env, p, piece, Label(env, p, piece));
    assert "" + text == text;
    var meant := PieceText(env, p, piece, RenderLabel(env, p, piece));
    assert RenderRest(env, Some(0), p, piece) == "" && meant + "" == meant;
  }

  /** The same happens inside a text: a shown link label is normalized as a text of its own. */
  lemma LabelBacktickIsLost(env: Env)
    requires env.dest("#x") == "#x"
    ensures Normalize(env, "[a`](#x)") == "[a](#x)" && Render(env, Some(0), "[a`](#x)") == "[a`](#x)"
    ensures EndsInTicks(env, Some(0), "[a`](#x)")
  {
    var p := "[a`](#x)";
    var piece := LabelPiece();
    assert PieceAt(env, Some(0), p) == piece && p[8..] == "";
    assert p[1..3] == "a`" && p[5..7] == "#x" && p[3..8] == "](#x)";
    TrailingBacktickIsLost(env);
    OnePiece(env, p);
    LabelText(env, p);
    RightUnlessEndsInTicks(env, p);
  }

  lemma LabelText(env: Env, p: string)
    requires p == "[a`](#x)" && env.dest("#x") == "#x"
    ensures Fits(p, Link(3, 7))
    ensures LinkText(env, p, Link(3, 7), "a") == "[a](#x)" && LinkText(env, p, Link(3, 7), "a`") == p
  {
    assert p[5..7] == "#x" && p[3..8] == "](#x)" && p[7] == ')';
  }

  lemma LabelPiece() returns (piece: Piece)
    ensures piece == Link(3, 7) == LinkPiece("[a`](#x)")
  {
    var p, q := "[a`](#x)", "(#x)";
    piece := Link(3, 7);
    assert Closing(p, '[', ']', 3, 1) == Some(3);
    assert Closing(p, '[', ']', 2, 1) == Some(3);
    assert Closing(p, '[', ']', 1, 1) == Some(3);
    assert p[4..] == q;
    assert Closing(q, '(', ')', 3, 1) == Some(3);
    assert Closing(q, '(', ')', 2, 1) == Some(3);
    assert Closing(q, '(', ')', 1, 1) == Some(3);
  }

  // ----- the event loop -----

  datatype Event = Answer(content: string) | Done(content: string) | Failed | Interrupted | Progress

  predicate Terminal(e: Event) { e.Done? || e.Failed? || e.Interrupted? }

  function AnswerOf(content: string): seq<Event> { if content == "" then [] else [Answer(content)] }

  /** What the stream emitted between two of its states. */
  function Delta(s: Scan, t: Scan): string {
    if |s.out| <= |t.out| then t.out[|s.out|..] else ""
  }

  function Flushed(env: Env, s: Scan): seq<Event> {
    AnswerOf(Delta(s, Run(env, s, true)))
  }

  /** The stream after one event, and what the loop sends for it. */
  function Handled(env: Env, s: Scan, e: Event): (Scan, seq<Event>) {
    if e.Answer? then
      var t := Run(env, Append(s, e.content), false);
      (t, AnswerOf(Delta(s, t)))
    else if Terminal(e) then
      (Run(env, s, true), Flushed(env, s) + [if e.Done? then Done(Normalize(env, e.content)) else e])
    else (s, [e])
  }

  /** What the event loop sends for the events it receives. */
  function Sent(env: Env, s: Scan, events: seq<Event>): seq<Event>
    decreases |events|
  {
    if events == [] then Flushed(env, s)
    else
      var (t, sent) := Handled(env, s, events[0]);
      sent + Sent(env, t, events[1..])
  }

  function AnswerText(events: seq<Event>): string {
    if events == [] then ""
    else (if events[0].Answer? then events[0].content else "") + AnswerText(events[1..])
  }

  method Flush(env: Env, stream: Stream) returns (sent: seq<Event>)
    requires stream.Valid()
    modifies stream
    ensures stream.Valid() && stream.View() == Run(env, old(stream.View()), true)
    ensures sent == Flushed(env, old(stream.View()))
  {
    ghost var s := stream.View();
    var text := stream.Push(env, "", true);
    assert Append(s, "") == s;
    assert Delta(s, stream.View()) == text;
    sent := if text != "" then [Answer(text)] else [];
  }

  method Handle(env: Env, stream: Stream, e: Event) returns (sent: seq<Event>)
    requires stream.Valid()
    modifies stream
    ensures stream.Valid() && (stream.View(), sent) == Handled(env, old(stream.View()), e)
  {
    ghost var s := stream.View();
    if e.Answer? {
      var text := stream.Push(env, e.content, false);
      assert Delta(s, stream.View()) == text;
      sent := if text != "" then [Answer(text)] else [];
    } else if Terminal(e) {
      sent := Flush(env, stream);
      var last := e;
      if e.Done? {
        var whole := NormalizeText(env, e.content);
        last := Done(whole);
      }
      sent := sent + [last];
    } else {
      sent := [e];
    }
  }

  /** `citationEventChannel`: rewrites answers incrementally and flushes before a terminal event. */
  method RewriteEvents(env: Env, events: seq<Event>) returns (sent: seq<Event>)
    ensures sent == Sent(env, START, events)
  {
    var stream := new Stream();
    sent := [];
    assert events[0..] == events;
    for i := 0 to |events|
      invariant stream.Valid() && fresh(stream)
      invariant Sent(env, START, events) == sent + Sent(env, stream.View(), events[i..])
    {
      assert events[i..][0] == events[i] && events[i..][1..] == events[i+1..];
      ghost var rest := events[i+1..];
      var more := Handle(env, stream, events[i]);
      assert sent + (more + Sent(env, stream.View(), rest)) == sent + more + Sent(env, stream.View(), rest);
      sent := sent + more;
    }
    assert events[|events|..] == [];
    var more := Flush(env, stream);
    sent := sent + more;
  }

  function Answers(chunks: seq<string>): (r: seq<Event>)
    ensures |r| == |chunks|
  {
    seq(|chunks|, i requires 0 <= i < |chunks| => Answer(chunks[i]))
  }

  lemma {:induction false} AnswerTextConcat(a: seq<Event>, b: seq<Event>)
    ensures AnswerText(a + b) == AnswerText(a) + AnswerText(b)
  {
    if a == [] {
      assert a + b == b;
    } else {
      assert (a + b)[0] == a[0] && (a + b)[1..] == a[1..] + b;
      AnswerTextConcat(a[1..], b);
    }
  }

  lemma AnswerOfText(text: string)
    ensures AnswerText(AnswerOf(text)) == text
  {
    if text != "" { assert AnswerText([Answer(text)]) == text + AnswerText([]); }
  }

  lemma SentEnd(env: Env, s: Scan, content: string)
    ensures Sent(env, s, [Done(content)]) == Flushed(env, s) + [Done(Normalize(env, content))]
    ensures s.out + AnswerText(Flushed(env, s)) == Run(env, s, true).out
  {
    var t := Run(env, s, true);
    FinalConsumesAll(env, s);
    RunGrows(env, s, true);
    AnswerOfText(Delta(s, t));
    assert [Done(content)][1..] == [];
    assert Run(env, t, true) == t && Delta(t, t) == "";
    assert Sent(env, t, []) == [];
  }

  /** Everything streamed from `s` on: the answers, then the saved text, then nothing. */
  lemma {:induction false} SentFrom(env: Env, s: Scan, chunks: seq<string>, content: string)
    requires AllSound(env, s, chunks, "")
    ensures var sent := Sent(env, s, Answers(chunks) + [Done(content)]);
            && |sent| > 0 && sent[|sent|-1] == Done(Normalize(env, content))
            && s.out + AnswerText(sent) == Run(env, Append(s, Concat(chunks)), true).out
    decreases |chunks|
  {
    if chunks == [] {
      SentDone(env, s, content);
    } else {
      var c, more := chunks[0], chunks[1..];
      var t := Run(env, Append(s, c), false);
      assert Concat(more) + "" == Concat(more);
      SoundPush(env, s, c, Concat(more));
      SentFrom(env, t, more, content);
      AnswersFirst(chunks, content);
      var rest := Answers(more) + [Done(content)];
      SentStep(env, s, c, t, rest, Sent(env, t, rest));
    }
  }

  lemma SentStep(env: Env, s: Scan, c: string, t: Scan, rest: seq<Event>, more: seq<Event>)
    requires t == Run(env, Append(s, c), false) && more == Sent(env, t, rest) && more != []
    ensures var sent := Sent(env, s, [Answer(c)] + rest);
            |sent| > 0 && sent[|sent|-1] == more[|more|-1] && s.out + AnswerText(sent) == t.out + AnswerText(more)
  {
    SentAnswer(env, s, c, rest);
    LastOf(AnswerOf(Delta(s, t)), more);
  }

  lemma LastOf(a: seq<Event>, b: seq<Event>)
    requires b != []
    ensures |a + b| > 0 && (a + b)[|a + b|-1] == b[|b|-1]
  {}

  lemma AnswersFirst(chunks: seq<string>, content: string)
    requires chunks != []
    ensures Answers(chunks) + [Done(content)] == [Answer(chunks[0])] + (Answers(chunks[1..]) + [Done(content)])
  {}

  lemma SentDone(env: Env, s: Scan, content: string)
    ensures var sent := Sent(env, s, Answers([]) + [Done(content)]);
            && |sent| > 0 && sent[|sent|-1] == Done(Normalize(env, content))
            && s.out + AnswerText(sent) == Run(env, Append(s, ""), true).out
  {
    assert Answers([]) + [Done(content)] == [Done(content)];
    SentEnd(env, s, content);
    var saved := [Done(Normalize(env, content))];
    AnswerTextConcat(Flushed(env, s), saved);
    assert AnswerText(saved) == "" + AnswerText(saved[1..]);
    assert Append(s, "") == s;
  }

  lemma SentAnswer(env: Env, s: Scan, c: string, rest: seq<Event>)
    ensures var t := Run(env, Append(s, c), false);
            && Sent(env, s, [Answer(c)] + rest) == AnswerOf(Delta(s, t)) + Sent(env, t, rest)
            && s.out + AnswerText(Sent(env, s, [Answer(c)] + rest)) == t.out + AnswerText(Sent(env, t, rest))
  {
    var t := Run(env, Append(s, c), false);
    SentFirst(env, s, c, rest);
    RunGrows(env, Append(s, c), false);
    AnswerTextAfter(s, t, Sent(env, t, rest));
  }

  lemma SentFirst(env: Env, s: Scan, c: string, rest: seq<Event>)
    ensures var t := Run(env, Append(s, c), false);
            Sent(env, s, [Answer(c)] + rest) == AnswerOf(Delta(s, t)) + Sent(env, t, rest)
  {
    assert ([Answer(c)] + rest)[0] == Answer(c) && ([Answer(c)] + rest)[1..] == rest;
  }

  lemma AnswerTextAfter(s: Scan, t: Scan, more: seq<Event>)
    requires s.out <= t.out
    ensures s.out + AnswerText(AnswerOf(Delta(s, t)) + more) == t.out + AnswerText(more)
  {
    AnswerTextConcat(AnswerOf(Delta(s, t)), more);
    AnswerOfText(Delta(s, t));
    assert s.out + Delta(s, t) == t.out;
    Regroup(s.out, Delta(s, t), AnswerText(more));
  }

  lemma Regroup(a: string, b: string, c: string)
    ensures a + (b + c) == a + b + c
  {}

  lemma NormalizedRun(env: Env, text: string)
    ensures Run(env, Append(START, text), true).out == Normalize(env, text)
  {
    assert Append(START, text) == START.(pending := text);
  }

  lemma LastIsText(sent: seq<Event>, text: string)
    requires sent != [] && sent[|sent|-1] == Done(text) && START.out + AnswerText(sent) == text
    ensures sent[|sent|-1] == Done(AnswerText(sent))
  {
    assert "" + AnswerText(sent) == AnswerText(sent);
  }

  lemma SoundStreamAgrees(env: Env, chunks: seq<string>)
    requires AllSound(env, START, chunks, "")
    ensures var sent := Sent(env, START, Answers(chunks) + [Done(Concat(chunks))]);
            |sent| > 0 && sent[|sent|-1] == Done(AnswerText(sent))
  {
    SentFrom(env, START, chunks, Concat(chunks));
    NormalizedRun(env, Concat(chunks));
    LastIsText(Sent(env, START, Answers(chunks) + [Done(Concat(chunks))]), Normalize(env, Concat(chunks)));
  }

  /** The streamed answer and the saved answer are the same text, and the saved one
      comes last. */
  lemma StreamAgreesWithDone(env: Env, chunks: seq<string>)
    requires AllUnforced(env, START, chunks)
    ensures var sent := Sent(env, START, Answers(chunks) + [Done(Concat(chunks))]);
            |sent| > 0 && sent[|sent|-1] == Done(AnswerText(sent))
  {
    AllUnforcedIsSound(env, START, chunks, "");
    SoundStreamAgrees(env, chunks);
  }

  /** So it is for every safe answer, those whose tags and links fit the buffer among them. */
  lemma SafeStreamAgrees(env: Env, chunks: seq<string>)
    requires CutSafe(env, Some(0), Concat(chunks), 0)
    ensures var sent := Sent(env, START, Answers(chunks) + [Done(Concat(chunks))]);
            |sent| > 0 && sent[|sent|-1] == Done(AnswerText(sent))
  {
    TextSafe(env, Concat(chunks));
    assert Concat(chunks) + "" == Concat(chunks);
    SafeChunks(env, START, chunks, "", 0);
    SoundStreamAgrees(env, chunks);
  }

  lemma ShortTagsStreamAgrees(env: Env, chunks: seq<string>)
    requires ShortPieces(env, Some(0), Concat(chunks))
    ensures var sent := Sent(env, START, Answers(chunks) + [Done(Concat(chunks))]);
            |sent| > 0 && sent[|sent|-1] == Done(AnswerText(sent))
  {
    ShortIsSafe(env, Some(0), Concat(chunks), 0);
    SafeStreamAgrees(env, chunks);
  }

  // ----- other events in between -----

  /** The answers among the events. */
  function Chunks(events: seq<Event>): seq<string> {
    if events == [] then [] else (if events[0].Answer? then [events[0].content] else []) + Chunks(events[1..])
  }

  /** The events that are no answers. */
  function Others(events: seq<Event>): seq<Event> {
    if events == [] then [] else (if events[0].Answer? then [] else [events[0]]) + Others(events[1..])
  }

  /** What everybody else gets to see: the same events, the saved text normalized. */
  function Public(env: Env, events: seq<Event>): seq<Event> {
    if events == [] then []
    else (match events[0] case Done(content) => [Done(Normalize(env, content))] case e => [e]) + Public(env, events[1..])
  }

  lemma {:induction false} OthersConcat(a: seq<Event>, b: seq<Event>)
    ensures Others(a + b) == Others(a) + Others(b)
  {
    if a == [] {
      assert a + b == b;
    } else {
      assert (a + b)[0] == a[0] && (a + b)[1..] == a[1..] + b;
      OthersConcat(a[1..], b);
    }
  }

  lemma OneEvent(e: Event)
    ensures Others([e]) == (if e.Answer? then [] else [e]) && AnswerText([e]) == if e.Answer? then e.content else ""
  {
    assert [e][1..] == [];
  }

  lemma AnswerOnly(text: string)
    ensures Others(AnswerOf(text)) == []
  {
    if text != "" { OneEvent(Answer(text)); }
  }

  lemma HandledOthers(env: Env, s: Scan, e: Event)
    ensures Others(Handled(env, s, e).1) == Public(env, Others([e]))
  {
    OneEvent(e);
    if e.Answer? {
      AnswerOnly(Delta(s, Handled(env, s, e).0));
    } else if Terminal(e) {
      var last := if e.Done? then Done(Normalize(env, e.content)) else e;
      AnswerOnly(Delta(s, Run(env, s, true)));
      OthersConcat(Flushed(env, s), [last]);
      OneEvent(last);
    }
  }

  lemma {:induction false} PublicConcat(env: Env, a: seq<Event>, b: seq<Event>)
    ensures Public(env, a + b) == Public(env, a) + Public(env, b)
  {
    if a == [] {
      assert a + b == b;
    } else {
      assert (a + b)[0] == a[0] && (a + b)[1..] == a[1..] + b;
      PublicConcat(env, a[1..], b);
    }
  }

  /** Every event that is no answer is sent on, once and in its order, and only the saved text
      of a closing event is rewritten. */
  lemma {:induction false} OthersPassThrough(env: Env, s: Scan, events: seq<Event>)
    ensures Others(Sent(env, s, events)) == Public(env, Others(events))
    decreases |events|
  {
    if events == [] {
      AnswerOnly(Delta(s, Run(env, s, true)));
    } else {
      var (t, sent) := Handled(env, s, events[0]);
      HandledOthers(env, s, events[0]);
      OthersPassThrough(env, t, events[1..]);
      OthersConcat(sent, Sent(env, t, events[1..]));
      OthersConcat([events[0]], events[1..]);
      assert [events[0]] + events[1..] == events;
      PublicConcat(env, Others([events[0]]), Others(events[1..]));
    }
  }

  /** No empty answer is sent. */
  lemma {:induction false} NoEmptyAnswers(env: Env, s: Scan, events: seq<Event>)
    ensures Answer("") !in Sent(env, s, events)
    decreases |events|
  {
    if events != [] { NoEmptyAnswers(env, Handled(env, s, events[0]).0, events[1..]); }
  }

  lemma SentOther(env: Env, s: Scan, e: Event, rest: seq<Event>)
    requires !e.Answer? && !Terminal(e)
    ensures Sent(env, s, [e] + rest) == [e] + Sent(env, s, rest)
    ensures AnswerText([e] + Sent(env, s, rest)) == AnswerText(Sent(env, s, rest))
  {
    assert ([e] + rest)[0] == e && ([e] + rest)[1..] == rest;
    AnswerTextConcat([e], Sent(env, s, rest));
    OneEvent(e);
    assert "" + AnswerText(Sent(env, s, rest)) == AnswerText(Sent(env, s, rest));
  }

  lemma SentLast(env: Env, s: Scan, last: Event)
    requires Terminal(last)
    ensures s.out + AnswerText(Sent(env, s, [last])) == Run(env, s, true).out
  {
    var t, shown := Run(env, s, true), if last.Done? then Done(Normalize(env, last.content)) else last;
    FinalConsumesAll(env, s);
    RunGrows(env, s, true);
    AnswerOfText(Delta(s, t));
    assert [last][1..] == [] && Run(env, t, true) == t && Delta(t, t) == "";
    assert Sent(env, s, [last]) == Flushed(env, s) + [shown] + [];
    assert Flushed(env, s) + [shown] + [] == Flushed(env, s) + [shown];
    AnswerTextConcat(Flushed(env, s), [shown]);
    OneEvent(shown);
  }

  /** Whatever else is sent in between, and however a run ends, the answers sent before the end
      are together what the pushes and a last one come to. */
  lemma {:induction false} MixedSent(env: Env, s: Scan, events: seq<Event>, last: Event)
    requires Terminal(last) && forall e :: e in events ==> !Terminal(e)
    ensures s.out + AnswerText(Sent(env, s, events + [last])) == Run(env, Pushed(env, s, Chunks(events)), true).out
    decreases |events|
  {
    if events == [] {
      assert events + [last] == [last];
      SentLast(env, s, last);
    } else {
      var e, more := events[0], events[1..];
      assert events + [last] == [e] + (more + [last]);
      if e.Answer? {
        var t := Run(env, Append(s, e.content), false);
        SentAnswer(env, s, e.content, more + [last]);
        MixedSent(env, t, more, last);
        PushedFirst(env, s, e.content, Chunks(more));
      } else {
        SentOther(env, s, e, more + [last]);
        MixedSent(env, s, more, last);
        assert [] + Chunks(more) == Chunks(more);
      }
    }
  }

  lemma PushedFirst(env: Env, s: Scan, c: string, more: seq<string>)
    ensures Pushed(env, s, [c] + more) == Pushed(env, Run(env, Append(s, c), false), more)
  {
    assert ([c] + more)[0] == c && ([c] + more)[1..] == more;
  }

  /** So a safe answer is streamed in full before the run ends, by success, failure or interrupt. */
  lemma SafeStreamIsComplete(env: Env, events: seq<Event>, last: Event)
    requires Terminal(last) && forall e :: e in events ==> !Terminal(e)
    requires CutSafe(env, Some(0), Concat(Chunks(events)), 0)
    ensures AnswerText(Sent(env, START, events + [last])) == Normalize(env, Concat(Chunks(events)))
  {
    var chunks := Chunks(events);
    MixedSent(env, START, events, last);
    SafeAnyCut(env, Concat(chunks));
    assert Concat(chunks) + "" == Concat(chunks);
    assert Append(Pushed(env, START, chunks), "") == Pushed(env, START, chunks);
    assert START.out + AnswerText(Sent(env, START, events + [last])) == AnswerText(Sent(env, START, events + [last]));
  }
}
