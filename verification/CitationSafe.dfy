/** The texts that come out the same however they are cut, told from the text alone. */
module CitationSafe {
  import opened CitationBound
  import opened CitationCuts
  import opened CitationRender
  import opened CitationScan
  import opened CitationStable
  import opened CitationStream
  import opened Options

  // ----- the condition -----

  function Max(a: nat, b: nat): nat { if a < b then b else a }

  predicate TicksFrom(p: string, k: nat) { forall i :: k <= i < |p| ==> p[i] == '`' }

  /** A run that could open a fence holds the scanner until its line is complete: so many
      characters have arrived before it goes on. */
  function HeldUntil(fence: bool, p: string): (n: nat)
    requires p != ""
    ensures n <= |p| && (0 < n < |p| ==> p[n-1] == '\n')
  {
    if (p[0] == '`' || p[0] == '~') && RunEnd(p, p[0], 0) >= 3 && fence then
      var nl := IndexFrom(p, '\n', RunEnd(p, p[0], 0));
      if nl == |p| then |p| else nl + 1
    else 0
  }

  /** How much more has to arrive after `size` characters. */
  function Remaining(from: nat, held: nat, size: nat): nat {
    if Max(from, held) <= size then 0 else Max(from, held) - size
  }

  /** No push can decide a tag or link at the start of the text wrongly, if `from` characters
      arrive before any decision: a tag or link is complete before the bound is reached, or,
      if it never ends, only backticks come after the decision. */
  predicate Unharmed(bound: nat, p: string, from: nat)
    requires p != ""
  {
    if p[0] == '<' && PrefixOf(p).Full? then
      var least := Max(Max(bound, from), |Opening(PrefixOf(p).kind)| + 1);
      match TagEnd(p, 1, None)
      case Some(end) => end < least
      case None => TicksFrom(p, least)
    else if p[0] == '[' && LabelEnd(p).Some? then
      var mid, least := LabelEnd(p).value, Max(bound, from);
      match TargetEnd(p, mid)
      case Some(end) => end < least
      case None => mid < least && TicksFrom(p, Max(least, mid + 2))
    else true
  }

  /** No cut of the text spoils it. A backtick run that opens nothing keeps a stream waiting
      to the end, so what follows it does not matter. */
  predicate CutSafe(env: Env, indent: Option<nat>, p: string, from: nat)
    decreases |p|, 1
  {
    p == "" ||
    var piece := PieceAt(env, indent, p);
    piece.Ticks? || (Unharmed(env.bound, p, from) && RestSafe(env, indent, p, piece, from))
  }

  predicate RestSafe(env: Env, indent: Option<nat>, p: string, piece: Piece, from: nat)
    requires p != "" && Fits(p, piece)
    decreases |p|, 0
  {
    CutSafe(env, IndentBehind(env, indent, p, piece), Rest(p, piece), FromBehind(indent, p, piece, from))
  }

  function FromBehind(indent: Option<nat>, p: string, piece: Piece, from: nat): nat
    requires p != "" && Fits(p, piece)
  {
    Remaining(from, HeldUntil(FenceMayOpen(indent), p), |p| - |Rest(p, piece)|)
  }

  // ----- the condition along the scanner's run over the whole text -----

  /** The scanner stands before an open run that is not closed in the text. */
  predicate Stuck(s: Scan) { s.code != "" && !s.fenced && SpanEnd(s.pending, |s.code|, 0, true).None? }

  function Held(s: Scan): (n: nat)
    requires s.pending != ""
    ensures n <= |s.pending| && (0 < n < |s.pending| ==> s.pending[n-1] == '\n')
  {
    if s.code == "" then HeldUntil(FenceStart(s.out), s.pending) else 0
  }

  function FromAfter(s: Scan, m: Move, from: nat): nat
    requires s.pending != "" && |m.rest| <= |s.pending|
  {
    Remaining(from, Held(s), |s.pending| - |m.rest|)
  }

  predicate ScanSafe(env: Env, s: Scan, from: nat)
    decreases |s.pending|, if s.code == "" then 0 else 1, 1
  {
    SafeHere(env, s, from)
  }

  predicate SafeHere(env: Env, s: Scan, from: nat)
    decreases |s.pending|, if s.code == "" then 0 else 1, 0
  {
    s.pending == "" || Stuck(s) ||
    ((s.code == "" ==> Unharmed(env.bound, s.pending, from)) &&
     match NextMove(env, s, true)
     case None => true
     case Some(m) => ScanSafe(env, Take(s, m), FromAfter(s, m, from)))
  }

  lemma SafeStep(env: Env, s: Scan, m: Move, from: nat)
    requires s.pending != "" && NextMove(env, s, true) == Some(m) && !Stuck(s)
    ensures |m.rest| <= |s.pending|
    ensures ScanSafe(env, s, from)
            <==> (s.code == "" ==> Unharmed(env.bound, s.pending, from))
                 && ScanSafe(env, Take(s, m), FromAfter(s, m, from))
  {}

  lemma DoneSafe(env: Env, s: Scan, from: nat)
    requires s.pending == "" || Stuck(s)
    ensures ScanSafe(env, s, from)
  {}

  lemma RemainingTwice(from: nat, held: nat, a: nat, b: nat)
    ensures Remaining(Remaining(from, held, a), 0, b) == Remaining(from, held, a + b)
  {}

  /** Inside code nothing can be decided wrongly. */
  lemma {:induction false} SafeInCode(env: Env, s: Scan, t: Scan, n: nat, from: nat) returns (left: nat)
    requires Leads(env, s, t, n) && !Stuck(s) && (n > 0 ==> s.code != "")
    ensures |t.pending| <= |s.pending| && left == Remaining(from, 0, |s.pending| - |t.pending|)
    ensures ScanSafe(env, s, from) <==> ScanSafe(env, t, left)
    decreases n
  {
    left := from;
    if n > 0 {
      var u, after := CodeStep(env, s, t, n, from);
      left := SafeInCode(env, u, t, n - 1, after);
      RemainingTwice(from, 0, |s.pending| - |u.pending|, |u.pending| - |t.pending|);
    } else {
      SafeSame(env, s, t, from);
    }
  }

  lemma SafeSame(env: Env, s: Scan, t: Scan, from: nat)
    requires Leads(env, s, t, 0)
    ensures |t.pending| == |s.pending| && Remaining(from, 0, 0) == from
    ensures ScanSafe(env, s, from) <==> ScanSafe(env, t, from)
  {}

  lemma CodeStep(env: Env, s: Scan, t: Scan, n: nat, from: nat) returns (u: Scan, left: nat)
    requires n > 0 && Leads(env, s, t, n) && !Stuck(s) && s.code != ""
    ensures Leads(env, u, t, n - 1) && !Stuck(u) && (n > 1 ==> u.code != "")
    ensures |u.pending| <= |s.pending| && left == Remaining(from, 0, |s.pending| - |u.pending|)
    ensures ScanSafe(env, s, from) <==> ScanSafe(env, u, left)
  {
    var m := NextMove(env, s, true).value;
    u := Take(s, m);
    left := FromAfter(s, m, from);
    SafeStep(env, s, m, from);
    CodeGoesOn(env, s, m);
  }

  lemma CodeGoesOn(env: Env, s: Scan, m: Move)
    requires s.pending != "" && s.code != "" && !Stuck(s) && NextMove(env, s, true) == Some(m)
    ensures !Stuck(Take(s, m))
  {}

  /** A piece that is no open run does not get the scanner stuck. */
  lemma PieceNotStuck(env: Env, s: Scan, indent: Option<nat>)
    requires s.pending != "" && Between(s, indent) && !PieceAt(env, indent, s.pending).Ticks?
    ensures NextMove(env, s, true).Some? && !Stuck(Take(s, NextMove(env, s, true).value))
  {
    var p := s.pending;
    if p[0] == '`' || p[0] == '~' {
      TicksMove(env, s, indent);
      var n := RunEnd(p, p[0], 0);
      if p[0] == '`' && !FenceOpens(indent, p, n) {
        SpanPieceSize(env, indent, p);
        assert n > 0 && |p[..n]| == n;
      }
    } else {
      match PieceAt(env, indent, p)
      case Verbatim(_) => PlainPiece(env, s, indent);
      case Replaced(_, _) => ReplacedPiece(env, s, indent);
      case Link(_, _) => LinkedPiece(env, s, indent);
    }
  }

  lemma SafeThrough(env: Env, s: Scan, t: Scan, n: nat, from: nat) returns (left: nat)
    requires s.code == "" && n > 0 && Leads(env, s, t, n) && !Stuck(Take(s, NextMove(env, s, true).value))
    ensures |t.pending| <= |s.pending| && left == Remaining(from, Held(s), |s.pending| - |t.pending|)
    ensures ScanSafe(env, s, from) <==> Unharmed(env.bound, s.pending, from) && ScanSafe(env, t, left)
  {
    var m := NextMove(env, s, true).value;
    var u, after := Take(s, m), FromAfter(s, m, from);
    SafeStep(env, s, m, from);
    left := SafeInCode(env, u, t, n - 1, after);
    RemainingTwice(from, Held(s), |s.pending| - |u.pending|, |u.pending| - |t.pending|);
  }

  lemma PieceSafe(env: Env, s: Scan, indent: Option<nat>, from: nat)
    requires s.pending != "" && Between(s, indent) && !PieceAt(env, indent, s.pending).Ticks?
    ensures var piece := PieceAt(env, indent, s.pending);
            ScanSafe(env, s, from)
            <==> Unharmed(env.bound, s.pending, from)
                 && ScanSafe(env, Behind(env, s, piece), FromBehind(indent, s.pending, piece, from))
  {
    var piece := PieceAt(env, indent, s.pending);
    var t := Behind(env, s, piece);
    PieceNotStuck(env, s, indent);
    var k := PieceRun(env, s, indent);
    var left := SafeThrough(env, s, t, k, from);
    BehindHeld(env, s, indent, piece, from);
  }

  lemma BehindHeld(env: Env, s: Scan, indent: Option<nat>, piece: Piece, from: nat)
    requires s.pending != "" && Between(s, indent) && Fits(s.pending, piece)
    ensures var t := Behind(env, s, piece);
            |t.pending| <= |s.pending|
            && Remaining(from, Held(s), |s.pending| - |t.pending|) == FromBehind(indent, s.pending, piece, from)
  {
    FenceShown(s.out);
  }

  lemma TicksSafe(env: Env, s: Scan, indent: Option<nat>, from: nat)
    requires s.pending != "" && Between(s, indent) && PieceAt(env, indent, s.pending).Ticks?
    ensures ScanSafe(env, s, from)
  {
    var n := PieceAt(env, indent, s.pending).size;
    TicksInside(env, s, indent);
    assert s.pending[0] == '`';
    var m := NextMove(env, s, true).value;
    assert Take(s, m) == Inside(s, n);
    assert n > 0 && |s.pending[..n]| == n;
    SafeStep(env, s, m, from);
    DoneSafe(env, Inside(s, n), FromAfter(s, m, from));
  }

  lemma {:induction false} SafeScanned(env: Env, s: Scan, indent: Option<nat>, from: nat)
    requires Between(s, indent)
    ensures ScanSafe(env, s, from) <==> CutSafe(env, indent, s.pending, from)
    decreases |s.pending|
  {
    if s.pending != "" {
      var piece := PieceAt(env, indent, s.pending);
      if piece.Ticks? {
        TicksSafe(env, s, indent, from);
      } else {
        PieceSafe(env, s, indent, from);
        BehindBetween(env, s, indent, piece);
        SafeScanned(env, Behind(env, s, piece), IndentBehind(env, indent, s.pending, piece),
                    FromBehind(indent, s.pending, piece, from));
      }
    }
  }

  lemma TextSafe(env: Env, text: string)
    ensures ScanSafe(env, Append(START, text), 0) <==> CutSafe(env, Some(0), text, 0)
  {
    assert Append(START, text).pending == text;
    SafeScanned(env, Append(START, text), Some(0), 0);
  }

  // ----- a safe text, however it is cut -----

  lemma StuckWaits(env: Env, s: Scan, q: string)
    requires s.pending != "" && Stuck(Append(s, q))
    ensures NextMove(env, s, false).None?
  {
    if SpanEnd(s.pending, |s.code|, 0, false).Some? { SpanEndStable(s.pending, q, |s.code|, 0, true); }
  }

  /** What goes on without waiting has all it waits for. */
  lemma HeldArrived(env: Env, s: Scan, q: string)
    requires s.pending != "" && NextMove(env, s, false).Some?
    ensures Held(Append(s, q)) <= |s.pending|
  {
    var p := s.pending;
    if s.code == "" && (p[0] == '`' || p[0] == '~') {
      var n := RunEnd(p, p[0], 0);
      RunEndStable(p, q, p[0], 0);
      if n >= 3 && FenceStart(s.out) { IndexStable(p, q, '\n', n); }
    }
  }

  lemma TicksTail(p: string, q: string, k: nat)
    requires TicksFrom(p + q, k) && k <= |p|
    ensures AllBackticks(q)
  {
    forall i | 0 <= i < |q| ensures q[i] == '`' { assert (p + q)[|p| + i] == q[i]; }
  }

  lemma ForcedTagSwallows(env: Env, s: Scan, q: string, from: nat)
    requires Forced(env, s) && !s.fenced && s.pending[0] == '<' && from <= |s.pending|
    requires Unharmed(env.bound, s.pending + q, from)
    ensures Swallows(env, s, q)
  {
    var p := s.pending;
    var kind := PrefixOf(p).kind;
    PrefixStable(p, q, KINDS);
    FullAmong(p, KINDS, kind);
    var least := Max(Max(env.bound, from), |Opening(kind)| + 1);
    var end := TagEnd(p + q, 1, None);
    if end.Some? { TagEndBefore(p, q, 1, None); }
    TicksTail(p, q, least);
    TagMove(env, s, false);
    TagMove(env, Append(s, q), true);
    assert EndsInText(UNVERIFIED_SOURCE);
  }

  lemma {:induction false} FullAmong(p: string, kinds: seq<Kind>, kind: Kind)
    requires PrefixAmong(p, kinds) == Full(kind)
    ensures IsFull(p, kind)
  {
    if !IsFull(p, kinds[0]) { FullAmong(p, kinds[1..], kind); }
  }

  lemma ForcedLinkSwallows(env: Env, s: Scan, q: string, from: nat)
    requires Forced(env, s) && !s.fenced && s.pending[0] == '[' && from <= |s.pending|
    requires Unharmed(env.bound, s.pending + q, from) && LabelEnd(s.pending + q).Some?
    ensures Swallows(env, s, q)
  {
    var p := s.pending;
    var mid, least := LabelEnd(p + q).value, Max(env.bound, from);
    if TargetEnd(p + q, mid).Some? { UnfinishedIsShort(p, q, mid); }
    ClosingBefore(p, q, '[', ']', 0, 0);
    assert LabelEnd(p) == Some(mid);
    TicksTail(p, q, Max(least, mid + 2));
    OpenTargetMove(env, s, mid, false);
    OpenTargetMove(env, Append(s, q), mid, true);
    assert EndsInText(UNVERIFIED_LINK);
  }

  /** A safe scanner decides as the whole text does, or swallows what does not matter. */
  lemma SafeDecides(env: Env, s: Scan, q: string, from: nat)
    requires s.pending != "" && Tidy(s) && NextMove(env, s, false).Some? && from <= |s.pending|
    requires s.code == "" ==> Unharmed(env.bound, s.pending + q, from)
    ensures Decides(env, s, q) || (Swallows(env, s, q) && Forced(env, s))
  {
    if !Decides(env, s, q) {
      UnsoundIsForced(env, s, q);
      if s.pending[0] == '<' {
        ForcedTagSwallows(env, s, q, from);
      } else {
        if LabelEnd(s.pending + q).None? { PlainBracketDecides(env, s, q); }
        ForcedLinkSwallows(env, s, q, from);
      }
    }
  }

  lemma OnlyTicksSafe(env: Env, s: Scan)
    requires s.code == "" && !s.fenced && AllBackticks(s.pending) && !FenceStart(s.out)
    ensures ScanSafe(env, s, 0)
  {
    var p := s.pending;
    if p != "" {
      assert p[0] in p;
      AllTicksRun(p, 0);
      assert p[..|p|] == p && p[|p|..] == "" && s.out + "" == s.out;
      var m := Move("", "", p, false);
      assert NextMove(env, s, true) == Some(m);
      SafeStep(env, s, m, 0);
      DoneSafe(env, Take(s, m), FromAfter(s, m, 0));
    }
  }

  lemma SwallowedSafe(env: Env, s: Scan, q: string)
    requires s.pending != "" && Swallows(env, s, q)
    ensures Run(env, s, false).pending == "" && ScanSafe(env, Append(Run(env, s, false), q), 0)
  {
    var m := NextMove(env, s, false).value;
    var t := Take(s, m);
    RunStep(env, s, m, false);
    NoFenceAfter(s.out, m.emit);
    assert Append(t, q).pending == q;
    OnlyTicksSafe(env, Append(t, q));
  }

  lemma {:induction false} SafeKeeps(env: Env, s: Scan, q: string, from: nat) returns (left: nat)
    requires Tidy(s) && ScanSafe(env, Append(s, q), from) && from <= |s.pending|
    ensures Sound(env, s, q)
    ensures left <= |Run(env, s, false).pending| && ScanSafe(env, Append(Run(env, s, false), q), left)
    decreases |s.pending|, if s.code == "" then 0 else 1
  {
    left := from;
    if s.pending != "" {
      if Stuck(Append(s, q)) { StuckWaits(env, s, q); }
      if NextMove(env, s, false).Some? {
        SafeDecides(env, s, q, from);
        if Swallows(env, s, q) {
          SwallowedSafe(env, s, q);
          left := 0;
        } else {
          left := SafeMove(env, s, q, from);
          var t := Take(s, NextMove(env, s, false).value);
          TidyMove(env, s, false);
          RunStep(env, s, NextMove(env, s, false).value, false);
          left := SafeKeeps(env, t, q, left);
        }
      }
    }
  }

  lemma SafeMove(env: Env, s: Scan, q: string, from: nat) returns (left: nat)
    requires s.pending != "" && Decides(env, s, q) && !Stuck(Append(s, q)) && from <= |s.pending|
    requires ScanSafe(env, Append(s, q), from)
    ensures var t := Take(s, NextMove(env, s, false).value);
            left <= |t.pending| && ScanSafe(env, Append(t, q), left)
  {
    var m := NextMove(env, s, false).value;
    SafeStep(env, Append(s, q), AppendMove(m, q), from);
    HeldArrived(env, s, q);
    left := FromAfter(Append(s, q), AppendMove(m, q), from);
    assert Take(Append(s, q), AppendMove(m, q)) == Append(Take(s, m), q);
  }

  lemma {:induction false} SafeChunks(env: Env, s: Scan, chunks: seq<string>, last: string, from: nat)
    requires Tidy(s) && ScanSafe(env, Append(s, Concat(chunks) + last), from) && from <= |s.pending|
    ensures AllSound(env, s, chunks, last)
    decreases |chunks|
  {
    if chunks != [] {
      var c, more := chunks[0], Concat(chunks[1..]) + last;
      assert Concat(chunks) + last == c + more;
      assert Append(s, c + more) == Append(Append(s, c), more);
      var left := SafeKeeps(env, Append(s, c), more, from);
      TidyRun(env, Append(s, c));
      SafeChunks(env, Run(env, Append(s, c), false), chunks[1..], last, left);
    }
  }

  /** A safe text comes out the same however it is cut. */
  lemma SafeAnyCut(env: Env, text: string)
    requires CutSafe(env, Some(0), text, 0)
    ensures SameHoweverCut(env, text)
  {
    TextSafe(env, text);
    forall chunks: seq<string>, last: string | Concat(chunks) + last == text
      ensures Run(env, Append(Pushed(env, START, chunks), last), true).out == Normalize(env, text)
    {
      SafeChunks(env, START, chunks, last, 0);
      SoundCut(env, chunks, last);
    }
  }

  // ----- texts that are safe at a glance -----

  /** The tag or link that the text begins with, if any, fits the buffer. */
  predicate FitsBuffer(bound: nat, p: string)
    requires p != ""
  {
    if p[0] == '<' && PrefixOf(p).Full? then
      match TagEnd(p, 1, None)
      case Some(end) => end < bound
      case None => |p| < bound
    else if p[0] == '[' && LabelEnd(p).Some? then
      match TargetEnd(p, LabelEnd(p).value)
      case Some(end) => end < bound
      case None => |p| < bound
    else true
  }

  /** Every tag and link of the text, up to a backtick run that opens nothing, fits the buffer. */
  predicate ShortPieces(env: Env, indent: Option<nat>, p: string)
    decreases |p|, 1
  {
    p == "" ||
    (FitsBuffer(env.bound, p) &&
     var piece := PieceAt(env, indent, p);
     piece.Ticks? || ShortRest(env, indent, p, piece))
  }

  predicate ShortRest(env: Env, indent: Option<nat>, p: string, piece: Piece)
    requires Fits(p, piece)
    decreases |p|, 0
  {
    ShortPieces(env, IndentBehind(env, indent, p, piece), Rest(p, piece))
  }

  lemma {:induction false} ShortIsSafe(env: Env, indent: Option<nat>, p: string, from: nat)
    requires ShortPieces(env, indent, p)
    ensures CutSafe(env, indent, p, from)
    decreases |p|
  {
    if p != "" {
      var piece := PieceAt(env, indent, p);
      if !piece.Ticks? {
        ShortIsSafe(env, IndentBehind(env, indent, p, piece), Rest(p, piece), FromBehind(indent, p, piece, from));
      }
    }
  }

  /** A text shorter than the bound has no room for a longer piece. */
  lemma {:induction false} ShortText(env: Env, indent: Option<nat>, p: string)
    requires |p| < env.bound
    ensures ShortPieces(env, indent, p)
    decreases |p|
  {
    if p != "" {
      var piece := PieceAt(env, indent, p);
      ShortText(env, IndentBehind(env, indent, p, piece), Rest(p, piece));
    }
  }

  /** A text whose tags and links fit the buffer comes out the same however it is cut. */
  lemma ShortTagsAnyCut(env: Env, text: string)
    requires ShortPieces(env, Some(0), text)
    ensures SameHoweverCut(env, text)
  {
    ShortIsSafe(env, Some(0), text, 0);
    SafeAnyCut(env, text);
  }

  /** So does every text shorter than the bound. */
  lemma ShortTextAnyCut(env: Env, text: string)
    requires |text| < env.bound
    ensures SameHoweverCut(env, text)
  {
    ShortText(env, Some(0), text);
    ShortTagsAnyCut(env, text);
  }

  // ----- a text that is not safe, and a cut that shows it -----

  /** Moves over the whole text lead from `s` to `t`, with so much to arrive before each. */
  predicate Before(env: Env, s: Scan, from: nat, t: Scan, fromT: nat)
    decreases |s.pending|, if s.code == "" then 0 else 1
  {
    (s == t && from == fromT) || Further(env, s, from, t, fromT)
  }

  predicate Further(env: Env, s: Scan, from: nat, t: Scan, fromT: nat)
    decreases |s.pending|, if s.code == "" then 0 else 1, 0
  {
    s.pending != "" && !Stuck(s) && NextMove(env, s, true).Some? &&
    var m := NextMove(env, s, true).value;
    Before(env, Take(s, m), FromAfter(s, m, from), t, fromT)
  }

  /** Where a scan that is not safe goes wrong. */
  lemma {:induction false} WhereUnsafe(env: Env, s: Scan, from: nat) returns (t: Scan, fromT: nat)
    requires Tidy(s) && !ScanSafe(env, s, from)
    ensures Before(env, s, from, t, fromT) && t.pending != "" && t.code == "" && !t.fenced
    ensures !Unharmed(env.bound, t.pending, fromT)
    decreases |s.pending|, if s.code == "" then 0 else 1
  {
    t, fromT := s, from;
    if s.code != "" || Unharmed(env.bound, s.pending, from) {
      var m := NextMove(env, s, true).value;
      TidyMove(env, s, true);
      t, fromT := WhereUnsafe(env, Take(s, m), FromAfter(s, m, from));
    }
  }

  predicate IsSuffix(x: string, p: string) { |x| <= |p| && p[|p|-|x|..] == x }

  lemma SuffixOfSuffix(x: string, y: string, p: string)
    requires IsSuffix(x, y) && IsSuffix(y, p)
    ensures IsSuffix(x, p)
  {}

  lemma MoveRestSuffix(env: Env, s: Scan)
    requires s.pending != "" && Tidy(s) && NextMove(env, s, true).Some?
    ensures IsSuffix(NextMove(env, s, true).value.rest, s.pending)
  {
    if s.code == "" && s.pending[0] == '[' { BracketRestSuffix(env, s); }
  }

  lemma BracketRestSuffix(env: Env, s: Scan)
    requires s.pending != "" && Tidy(s) && s.code == "" && s.pending[0] == '[' && NextMove(env, s, true).Some?
    ensures IsSuffix(NextMove(env, s, true).value.rest, s.pending)
  {
    if LabelEnd(s.pending).None? {
      BracketMove(env, s, true);
    } else {
      var mid := LabelEnd(s.pending).value;
      var end := TargetEnd(s.pending, mid);
      if end.None? { OpenTargetMove(env, s, mid, true); } else { WholeLinkMove(env, s, mid, end.value, true); }
    }
  }

  /** What a scanner waits for ends with a line. */
  predicate LineArrives(p: string, from: nat) { from <= |p| && (0 < from < |p| ==> p[from-1] == '\n') }

  lemma LineStays(p: string, x: string, from: nat, held: nat)
    requires LineArrives(p, from) && LineArrives(p, held) && IsSuffix(x, p)
    ensures LineArrives(x, Remaining(from, held, |p| - |x|))
  {
    var k := Remaining(from, held, |p| - |x|);
    if 0 < k < |x| { assert x[k-1] == p[|p|-|x|+k-1]; }
  }

  /** The text at `t` is the end of the text at `s`, and what `s` waits for comes before what
      `t` waits for. */
  lemma {:induction false} BeforeFacts(env: Env, s: Scan, from: nat, t: Scan, fromT: nat)
    requires Tidy(s) && Before(env, s, from, t, fromT) && LineArrives(s.pending, from)
    ensures IsSuffix(t.pending, s.pending) && LineArrives(t.pending, fromT)
    ensures from <= fromT + |s.pending| - |t.pending|
    decreases |s.pending|, if s.code == "" then 0 else 1
  {
    if !(s == t && from == fromT) {
      var m := NextMove(env, s, true).value;
      MoveRestSuffix(env, s);
      LineStays(s.pending, m.rest, from, Held(s));
      TidyMove(env, s, true);
      BeforeFacts(env, Take(s, m), FromAfter(s, m, from), t, fromT);
      SuffixOfSuffix(t.pending, m.rest, s.pending);
    }
  }
}
