/** When the streamed answer is the whole-text decoding of the same JSON string. */
module AnswerAgreement {
  import opened JsonText
  import opened AnswerDecoder
  import opened Options

  /** The decoder inside the string, with `p` still to read. */
  function Content(h: seq<Byte>, p: seq<Byte>, out: seq<Byte>): State { State(h, p, true, true, false, out) }

  function Tail(rest: seq<Byte>): seq<Byte> { [QUOTE] + rest }

  /** It reads the content up to the closing quote and decodes it to `text`. */
  ghost predicate Completes(ok: HeaderCheck, h: seq<Byte>, body: seq<Byte>, rest: seq<Byte>, out: seq<Byte>,
                            text: seq<Byte>) {
    Run(ok, Content(h, body + Tail(rest), out)) == Outcome(State(h, Tail(rest), true, true, true, out + text), false)
  }

  /** The decoder's first bite of the content is well formed and ends between two units:
      six or two bytes of an escape, a character, or twelve bytes at a high surrogate. */
  predicate TileOk(s: seq<Byte>)
    requires s != []
  {
    if HighAt(s) then |s| >= 12 && Boundary(s, 12)
    else FirstToken(s).Some? && (s[0] == BACKSLASH || Utf8Front(s).Rune?)
  }

  function TileSize(s: seq<Byte>): (n: nat)
    requires s != [] && TileOk(s)
    ensures 0 < n <= |s|
  {
    if HighAt(s) then 12 else FirstToken(s).value.size
  }

  /** The bites tile the content. */
  predicate Tiled(s: seq<Byte>) {
    s == [] || (TileOk(s) && Tiled(s[TileSize(s)..]))
  }

  // ----- tiled content is decoded like the whole text -----

  lemma TileStep(h: seq<Byte>, s: seq<Byte>, rest: seq<Byte>, out: seq<Byte>)
    requires s != [] && TileOk(s)
    ensures var n := TileSize(s);
            && Boundary(s, n) && Unquote(s[..n]).Some?
            && StepText(Content(h, s + Tail(rest), out))
               == Go(Content(h, s[n..] + Tail(rest), out + Unquote(s[..n]).value))
  {
    var n, p := TileSize(s), s + Tail(rest);
    assert p[0] == s[0] && p[..n] == s[..n] && p[n..] == s[n..] + Tail(rest);
    if HighAt(s) {
      assert EscapeCode(p) == EscapeCode(s);
      UnquoteSplit(s, 12);
    } else {
      TokenPrefix(s, n);
      UnquoteOne(s[..n], FirstToken(s).value);
      if s[0] == BACKSLASH {
        if s[1] == LETTER_U { assert EscapeCode(p) == EscapeCode(s); }
      } else {
        FrontStable(s, Tail(rest));
      }
    }
  }

  lemma {:induction false} TiledCompletes(ok: HeaderCheck, h: seq<Byte>, s: seq<Byte>, rest: seq<Byte>, out: seq<Byte>)
    requires Tiled(s)
    ensures Unquote(s).Some? && Completes(ok, h, s, rest, out, Unquote(s).value)
    decreases |s|
  {
    if s == [] {
      EmptyCompletes(ok, h, rest, out);
    } else {
      var n, c := TileSize(s), Content(h, s + Tail(rest), out);
      TileStep(h, s, rest, out);
      RunStep(ok, c);
      UnquoteSplit(s, n);
      TiledCompletes(ok, h, s[n..], rest, out + Unquote(s[..n]).value);
      Regroup(out, Unquote(s[..n]).value, Unquote(s[n..]).value);
    }
  }

  lemma Regroup(a: seq<Byte>, b: seq<Byte>, c: seq<Byte>)
    ensures a + b + c == a + (b + c)
  {}

  lemma EmptyCompletes(ok: HeaderCheck, h: seq<Byte>, rest: seq<Byte>, out: seq<Byte>)
    ensures Completes(ok, h, [], rest, out, [])
  {
    var c := Content(h, Tail(rest), out);
    assert [] + Tail(rest) == Tail(rest) && out + [] == out;
    RunStep(ok, c);
    assert Run(ok, c.(done := true)) == Outcome(c.(done := true), false);
  }

  // ----- only tiled content is -----

  lemma {:induction false} RunShrinks(ok: HeaderCheck, s: State)
    ensures |Run(ok, s).state.pending| <= |s.pending|
    decreases |s.pending|, if s.done then 0 else 1
  {
    if s.pending != [] && !s.done && NextStep(ok, s).Go? { RunShrinks(ok, NextStep(ok, s).next); }
  }

  /** The size of the decoder's bite when it succeeds. */
  predicate Bite(s: seq<Byte>, n: nat)
    requires s != [] && n <= |s|
  {
    if HighAt(s) then n == 12
    else FirstToken(s).Some? && FirstToken(s).value.size == n && (s[0] == BACKSLASH || Utf8Front(s).Rune?)
  }

  /** Where the content ends is where the tail begins, so every bite lies in the content. */
  lemma BiteOf(h: seq<Byte>, s: seq<Byte>, rest: seq<Byte>, out: seq<Byte>) returns (n: nat, t: seq<Byte>)
    requires s != [] && s[0] != QUOTE
    requires StepText(Content(h, s + Tail(rest), out)).Go?
    requires |StepText(Content(h, s + Tail(rest), out)).next.pending| >= |Tail(rest)|
    ensures 0 < n <= |s| && Bite(s, n) && Unquote(s[..n]) == Some(t)
    ensures StepText(Content(h, s + Tail(rest), out)) == Go(Content(h, s[n..] + Tail(rest), out + t))
  {
    var p := s + Tail(rest);
    assert p[0] == s[0];
    if s[0] == BACKSLASH {
      n := EscapeWindow(p).n;
      assert p[..n] == s[..n] && p[n..] == s[n..] + Tail(rest);
      t := Unquote(s[..n]).value;
      EscapeBite(s, p, n);
    } else {
      n := Utf8Front(p).size;
      assert p[..n] == s[..n] && p[n..] == s[n..] + Tail(rest);
      FrontPrefix(p, n);
      FrontStable(s[..n], s[n..]);
      assert s[..n] + s[n..] == s;
      t := s[..n];
      assert t[..n] == t;
      UnquoteOne(t, Token(n, t));
    }
  }

  lemma EscapeBite(s: seq<Byte>, p: seq<Byte>, n: nat)
    requires s != [] && s[0] == BACKSLASH && |s| <= |p| && p[..|s|] == s
    requires EscapeWindow(p) == Width(n) && n <= |s| && Unquote(s[..n]).Some?
    ensures Bite(s, n)
  {
    assert s[1] == p[1];
    if s[1] == LETTER_U {
      assert EscapeCode(p) == EscapeCode(s) == EscapeCode(s[..n]);
    } else {
      assert s[..n][1] == s[1] && FirstToken(s[..n]).Some?;
    }
  }

  lemma NoQuoteYet(ok: HeaderCheck, h: seq<Byte>, s: seq<Byte>, rest: seq<Byte>, out: seq<Byte>, text: seq<Byte>)
    requires s != [] && Completes(ok, h, s, rest, out, text)
    ensures s[0] != QUOTE
  {
    RunStep(ok, Content(h, s + Tail(rest), out));
    assert (s + Tail(rest))[0] == s[0] && |s + Tail(rest)| != |Tail(rest)|;
  }

  lemma FirstBite(ok: HeaderCheck, h: seq<Byte>, s: seq<Byte>, rest: seq<Byte>, out: seq<Byte>, text: seq<Byte>)
    returns (n: nat, t: seq<Byte>)
    requires s != [] && Completes(ok, h, s, rest, out, text)
    ensures 0 < n <= |s| && Bite(s, n) && Unquote(s[..n]) == Some(t)
    ensures t <= text && Completes(ok, h, s[n..], rest, out + t, text[|t|..])
  {
    var c := Content(h, s + Tail(rest), out);
    RunStep(ok, c);
    NoQuoteYet(ok, h, s, rest, out, text);
    assert c.pending[0] == s[0];
    RunShrinks(ok, StepText(c).next);
    n, t := BiteOf(h, s, rest, out);
    RunEmitsRunes(ok, StepText(c).next);
    PrefixText(out, t, text);
  }

  lemma PrefixText(out: seq<Byte>, t: seq<Byte>, text: seq<Byte>)
    requires out + t <= out + text
    ensures t <= text && out + t + text[|t|..] == out + text
  {
    assert (out + text)[|out|..] == text && (out + t)[|out|..] == t;
    assert t == text[..|t|];
  }

  lemma NoBiteInside(ok: HeaderCheck, h: seq<Byte>, s: seq<Byte>, rest: seq<Byte>, out: seq<Byte>, text: seq<Byte>)
    requires s != [] && Continuation(s[0])
    ensures !Completes(ok, h, s, rest, out, text)
  {
    if Completes(ok, h, s, rest, out, text) {
      var n, t := FirstBite(ok, h, s, rest, out, text);
    }
  }

  /** The decoder completes no content that the whole-text decoder would reject. */
  lemma {:induction false} CompletedIsWellFormed(ok: HeaderCheck, h: seq<Byte>, s: seq<Byte>, rest: seq<Byte>,
                                                 out: seq<Byte>, text: seq<Byte>)
    requires Completes(ok, h, s, rest, out, text)
    ensures Unquote(s).Some?
    decreases |s|
  {
    if s != [] {
      var n, t := FirstBite(ok, h, s, rest, out, text);
      CompletedIsWellFormed(ok, h, s[n..], rest, out + t, text[|t|..]);
      if HighAt(s) {
        if Boundary(s, n) {
          UnquoteSplit(s, n);
        } else {
          CutOutside(s, n);
          if Continuation(s[n]) { NoBiteInside(ok, h, s[n..], rest, out + t, text[|t|..]); }
        }
      }
    }
  }

  lemma {:induction false} CompletedIsTiled(ok: HeaderCheck, h: seq<Byte>, s: seq<Byte>, rest: seq<Byte>,
                                            out: seq<Byte>)
    requires Unquote(s).Some? && Completes(ok, h, s, rest, out, Unquote(s).value)
    ensures Tiled(s)
    decreases |s|
  {
    if s != [] {
      var text := Unquote(s).value;
      var n, t := FirstBite(ok, h, s, rest, out, text);
      CompletedIsWellFormed(ok, h, s[n..], rest, out + t, text[|t|..]);
      BiteIsTile(ok, h, s, rest, out + t, text, n, t);
      UnquoteSplit(s, n);
      assert Unquote(s[n..]).value == text[|t|..];
      CompletedIsTiled(ok, h, s[n..], rest, out + t);
    }
  }

  lemma BiteIsTile(ok: HeaderCheck, h: seq<Byte>, s: seq<Byte>, rest: seq<Byte>, out: seq<Byte>, text: seq<Byte>,
                   n: nat, t: seq<Byte>)
    requires s != [] && 0 < n <= |s| && Bite(s, n) && Unquote(s[..n]) == Some(t)
    requires Unquote(s) == Some(text) && t <= text && Unquote(s[n..]).Some?
    requires Completes(ok, h, s[n..], rest, out, text[|t|..])
    ensures TileOk(s) && TileSize(s) == n && Boundary(s, n)
  {
    if !Boundary(s, n) {
      CutOutside(s, n);
      if Continuation(s[n]) { NoBiteInside(ok, h, s[n..], rest, out, text[|t|..]); }
    }
  }

  /** Streamed and whole decoding agree exactly on tiled content. */
  lemma AgreesExactlyWhenTiled(ok: HeaderCheck, h: seq<Byte>, body: seq<Byte>, rest: seq<Byte>)
    ensures Tiled(body) <==> Unquote(body).Some? && Completes(ok, h, body, rest, [], Unquote(body).value)
  {
    if Tiled(body) { TiledCompletes(ok, h, body, rest, []); }
    if Unquote(body).Some? && Completes(ok, h, body, rest, [], Unquote(body).value) {
      CompletedIsTiled(ok, h, body, rest, []);
    }
  }

  // ----- paired surrogates -----

  /** Every high surrogate escape is followed by a low one. */
  predicate Paired(s: seq<Byte>) {
    s == [] || FirstToken(s).None? || ((HighAt(s) ==> LowAt(s[6..])) && Paired(s[FirstToken(s).value.size..]))
  }

  /** Every unescaped character is well-formed UTF-8. */
  predicate RawValid(s: seq<Byte>) {
    s == [] || FirstToken(s).None?
    || ((s[0] == BACKSLASH || Utf8Front(s).Rune?) && RawValid(s[FirstToken(s).value.size..]))
  }

  /** With paired surrogates, well-formed content is all that tiling asks for. */
  lemma {:induction false} PairedTiled(s: seq<Byte>)
    requires Paired(s)
    ensures Tiled(s) <==> Unquote(s).Some? && RawValid(s)
    decreases |s|
  {
    if s != [] && FirstToken(s).Some? {
      var n := FirstToken(s).value.size;
      assert Boundary(s, n) by { assert Boundary(s[n..], 0); }
      assert HighAt(s) ==> n == 12;
      PairedTiled(s[n..]);
    }
  }

  // ----- from the first byte of the arguments -----

  function Transcode(h: seq<Byte>): seq<Byte> { if h == [] then [] else StringOf(h[0]) + Transcode(h[1..]) }

  lemma {:induction false} HeaderRun(ok: HeaderCheck, header: seq<Byte>, head: seq<Byte>, more: seq<Byte>)
    requires COLON !in head && ok(header + Transcode(head) + [COLON])
    ensures Run(ok, State(header, head + [COLON] + more, false, false, false, []))
         == Run(ok, State(header + Transcode(head) + [COLON], more, true, false, false, []))
    decreases |head|
  {
    var s := State(header, head + [COLON] + more, false, false, false, []);
    RunStep(ok, s);
    if head == [] {
      assert s.pending[0] == COLON && s.pending[1..] == more;
      assert header + [] + [COLON] == header + StringOf(COLON);
    } else {
      assert s.pending[0] == head[0] && s.pending[1..] == head[1..] + [COLON] + more;
      assert header + (StringOf(head[0]) + Transcode(head[1..])) == header + StringOf(head[0]) + Transcode(head[1..]);
      HeaderRun(ok, header + StringOf(head[0]), head[1..], more);
    }
  }

  lemma {:induction false} SpaceRun(ok: HeaderCheck, h: seq<Byte>, space: seq<Byte>, p: seq<Byte>)
    requires forall c :: c in space ==> IsSpace(c)
    ensures Run(ok, State(h, space + [QUOTE] + p, true, false, false, [])) == Run(ok, Content(h, p, []))
    decreases |space|
  {
    var s := State(h, space + [QUOTE] + p, true, false, false, []);
    RunStep(ok, s);
    if space == [] {
      assert s.pending[0] == QUOTE && s.pending[1..] == p;
    } else {
      assert s.pending[0] == space[0] && IsSpace(space[0]) && s.pending[1..] == space[1..] + [QUOTE] + p;
      SpaceRun(ok, h, space[1..], p);
    }
  }

  /** The arguments of a `respond` call whose only field is a string with content `body`. */
  function Arguments(head: seq<Byte>, space: seq<Byte>, body: seq<Byte>, rest: seq<Byte>): seq<Byte> {
    head + [COLON] + (space + [QUOTE] + (body + Tail(rest)))
  }

  /** However the arguments are cut, the stream ends with the whole-text decoding of the
      answer exactly when its content is tiled. */
  lemma StreamedAnswer(ok: HeaderCheck, head: seq<Byte>, space: seq<Byte>, body: seq<Byte>, rest: seq<Byte>,
                       fragments: seq<seq<Byte>>)
    requires COLON !in head && ok(Transcode(head) + [COLON]) && forall c :: c in space ==> IsSpace(c)
    requires Concat(fragments) == Arguments(head, space, body, rest)
    ensures Tiled(body) <==>
            Unquote(body).Some? &&
            Fed(ok, START, fragments)
              == Outcome(State(Transcode(head) + [COLON], Tail(rest), true, true, true, Unquote(body).value), false)
    ensures var fed := Fed(ok, START, fragments);
            !fed.failed && fed.state.done && fed.state.pending == Tail(rest) ==> Unquote(body).Some?
  {
    var h := Transcode(head) + [COLON];
    var args := Arguments(head, space, body, rest);
    assert Append(START, args) == State([], args, false, false, false, []);
    assert [] + Transcode(head) + [COLON] == h;
    HeaderRun(ok, [], head, space + [QUOTE] + (body + Tail(rest)));
    SpaceRun(ok, h, space, body + Tail(rest));
    FragmentInvariance(ok, START, fragments);
    AgreesExactlyWhenTiled(ok, h, body, rest);
    var whole := Run(ok, Content(h, body + Tail(rest), []));
    if Unquote(body).Some? { assert [] + Unquote(body).value == Unquote(body).value; }
    ContentKept(ok, Content(h, body + Tail(rest), []));
    if !whole.failed && whole.state.done && whole.state.pending == Tail(rest) {
      assert [] + whole.state.out == whole.state.out;
      CompletedIsWellFormed(ok, h, body, rest, [], whole.state.out);
    }
  }

  lemma {:induction false} ContentKept(ok: HeaderCheck, s: State)
    requires s.value && s.started
    ensures var t := Run(ok, s).state; t.header == s.header && t.value && t.started
    decreases |s.pending|, if s.done then 0 else 1
  {
    if s.pending != [] && !s.done && NextStep(ok, s).Go? { ContentKept(ok, NextStep(ok, s).next); }
  }

  // ----- unpaired surrogates -----

  const HIGH_ESCAPE: seq<Byte> := [92, 117, 68, 56, 51, 68]  // \uD83D
  const LOW_ESCAPE: seq<Byte> := [92, 117, 68, 69, 48, 48]   // \uDE00

  /** A high surrogate before a pair takes the first half of the pair into its window:
      the stream shows three replacement characters where the text has one and U+1F600. */
  lemma UnpairedDisagrees(ok: HeaderCheck, h: seq<Byte>, rest: seq<Byte>)
    ensures var body := HIGH_ESCAPE + HIGH_ESCAPE + LOW_ESCAPE;
            && Unquote(body) == Some(REPLACEMENT + [0xF0, 0x9F, 0x98, 0x80])
            && Completes(ok, h, body, rest, [], REPLACEMENT + REPLACEMENT + REPLACEMENT)
            && !Tiled(body)
  {
    var body, pair := HIGH_ESCAPE + HIGH_ESCAPE + LOW_ESCAPE, HIGH_ESCAPE + LOW_ESCAPE;
    assert body[6..] == pair && pair[6..] == LOW_ESCAPE && LOW_ESCAPE[6..] == [];
    assert EscapeCode(body) == EscapeCode(pair) == Some(0xD83D) && EscapeCode(LOW_ESCAPE) == Some(0xDE00);
    assert FirstToken(pair) == Some(Token(12, [0xF0, 0x9F, 0x98, 0x80]));
    UnquoteOne(pair, FirstToken(pair).value);
    assert FirstToken(body) == Some(Token(6, REPLACEMENT));
    assert !Boundary(body, 12) by { assert !Boundary(pair, 6); }
    StepOfTwo(h, body, rest);
    RunStep(ok, Content(h, body + Tail(rest), []));
    UnquoteOne(LOW_ESCAPE, Token(6, REPLACEMENT));
    TiledCompletes(ok, h, LOW_ESCAPE, rest, REPLACEMENT + REPLACEMENT);
  }

  lemma StepOfTwo(h: seq<Byte>, body: seq<Byte>, rest: seq<Byte>)
    requires body == HIGH_ESCAPE + HIGH_ESCAPE + LOW_ESCAPE
    ensures StepText(Content(h, body + Tail(rest), []))
         == Go(Content(h, LOW_ESCAPE + Tail(rest), REPLACEMENT + REPLACEMENT))
  {
    var p := body + Tail(rest);
    assert p[..12] == body[..12] && p[12..] == LOW_ESCAPE + Tail(rest) && EscapeCode(p) == Some(0xD83D);
    WindowOfTwo(body);
  }

  lemma WindowOfTwo(body: seq<Byte>)
    requires body == HIGH_ESCAPE + HIGH_ESCAPE + LOW_ESCAPE
    ensures Unquote(body[..12]) == Some(REPLACEMENT + REPLACEMENT)
  {
    var w := HIGH_ESCAPE + HIGH_ESCAPE;
    assert body[..12] == w && w[6..] == HIGH_ESCAPE && HIGH_ESCAPE[6..] == [];
    assert EscapeCode(w) == EscapeCode(HIGH_ESCAPE) == Some(0xD83D);
    UnquoteOne(HIGH_ESCAPE, Token(6, REPLACEMENT));
    assert FirstToken(w) == Some(Token(6, REPLACEMENT));
  }
}
