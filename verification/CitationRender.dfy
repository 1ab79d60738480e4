/** What a finished text should look like, said without the scanner: the text is a sequence
    of pieces, every piece but a tag or a link comes out as it went in, and a backtick run
    that opens nothing is ordinary text. The scanner agrees unless such a run stands at the
    very end of the text or of a link label that is shown. */
module CitationRender {
  import opened CitationScan
  import opened CitationStream
  import opened Options

  // ----- where a fence may stand -----

  /** Spaces between the start of the line and here; none when something else precedes. */
  function IndentAfter(indent: Option<nat>, text: string): Option<nat>
    decreases |text|
  {
    if text == "" then indent
    else
      var n := |text| - 1;
      if text[n] == '\n' then Some(0)
      else if text[n] != ' ' then None
      else match IndentAfter(indent, text[..n]) case None => None case Some(k) => Some(k + 1)
  }

  function IndentOf(out: string): Option<nat> { IndentAfter(Some(0), out) }

  predicate FenceMayOpen(indent: Option<nat>) { indent.Some? && indent.value <= 3 }

  lemma {:induction false} IndentConcat(indent: Option<nat>, a: string, b: string)
    ensures IndentAfter(indent, a + b) == IndentAfter(IndentAfter(indent, a), b)
  {
    if b == "" {
      assert a + b == a;
    } else {
      var n := |b| - 1;
      assert (a + b)[..|a+b|-1] == a + b[..n];
      IndentConcat(indent, a, b[..n]);
    }
  }

  lemma {:induction false} IndentIsLine(out: string)
    ensures IndentOf(out) == if (forall c :: c in LastLine(out) ==> c == ' ') then Some(|LastLine(out)|) else None
  {
    if out != "" {
      var n := |out| - 1;
      IndentIsLine(out[..n]);
      var line := LastLine(out[..n]);
      assert out[n] in line + [out[n]] && forall c :: c in line ==> c in line + [out[n]];
    }
  }

  lemma FenceShown(out: string)
    ensures FenceStart(out) <==> FenceMayOpen(IndentOf(out))
  {
    IndentIsLine(out);
  }

  // ----- the pieces of a text -----

  datatype Piece =
    | Verbatim(size: nat)                // ordinary text, an escape, a code span, a fence
    | Ticks(size: nat)                   // a backtick run that opens nothing
    | Replaced(size: nat, text: string)  // a tag, or a tag or link that never ends
    | Link(mid: nat, end: nat)           // `[...](...)`, with the last bracket at `end`

  predicate Fits(p: string, piece: Piece) {
    if piece.Link? then 0 < piece.mid < piece.mid + 1 < piece.end < |p| && p[piece.end] == ')'
    else 0 < piece.size <= |p|
  }

  /** Length of a fence after its opening run: through the closing line, or all of it. */
  function FenceBody(env: Env, code: string, lineStart: bool, p: string): (n: nat)
    requires code != ""
    ensures n <= |p| && (0 < n < |p| ==> p[n-1] == '\n') && (p != "" ==> n > 0)
    decreases |p|
  {
    if p == "" then 0
    else
      var end := LineEnd(p);
      if lineStart && ClosingLine(env, p[..end], code) then end
      else end + FenceBody(env, code, true, p[end..])
  }

  predicate FenceOpens(indent: Option<nat>, p: string, n: nat)
    requires 0 < n <= |p|
  {
    n >= 3 && FenceMayOpen(indent) && !(p[0] == '`' && '`' in p[n..IndexFrom(p, '\n', n)])
  }

  function TicksPiece(env: Env, indent: Option<nat>, p: string): (piece: Piece)
    requires p != "" && (p[0] == '`' || p[0] == '~')
    ensures piece.Verbatim? || piece.Ticks?
    ensures 0 < piece.size <= |p|
  {
    var n := RunEnd(p, p[0], 0);
    if FenceOpens(indent, p, n) then Verbatim(n + FenceBody(env, p[..n], false, p[n..]))
    else if p[0] == '~' then Verbatim(n)
    else match SpanEnd(p[n..], n, 0, true)
      case Some(end) => Verbatim(n + end)
      case None => Ticks(n)
  }

  function TagPiece(env: Env, p: string): (piece: Piece)
    requires p != ""
    ensures piece.Verbatim? || piece.Replaced?
    ensures 0 < piece.size <= |p|
  {
    var prefix := PrefixOf(p);
    if prefix.Partial? && |p| < |Opening(prefix.kind)| then Verbatim(|p|)
    else if prefix.NoTag? then Verbatim(1)
    else match TagEnd(p, 1, None)
      case None => Replaced(|p|, UNVERIFIED_SOURCE)
      case Some(end) => Replaced(end + 1, env.tag(prefix.kind, p[..end+1]))
  }

  function LinkPiece(p: string): (piece: Piece)
    requires p != "" && p[0] == '['
    ensures !piece.Ticks? && Fits(p, piece)
    ensures piece.Verbatim? ==> piece.size == 1
    ensures piece.Replaced? ==> piece.size == |p| && piece.text == UNVERIFIED_LINK
  {
    match Closing(p, '[', ']', 0, 0)
    case None => Verbatim(1)
    case Some(mid) =>
      if mid + 1 >= |p| || p[mid+1] != '(' then Verbatim(1)
      else match Closing(p[mid+1..], '(', ')', 0, 0)
        case None => Replaced(|p|, UNVERIFIED_LINK)
        case Some(close) => Link(mid, mid + 1 + close)
  }

  /** The piece a text begins with. */
  function PieceAt(env: Env, indent: Option<nat>, p: string): (piece: Piece)
    requires p != ""
    ensures Fits(p, piece)
  {
    if p[0] == '\\' then Verbatim(if |p| == 1 then 1 else 2)
    else if p[0] == '`' || p[0] == '~' then TicksPiece(env, indent, p)
    else if p[0] == '<' then TagPiece(env, p)
    else if p[0] == '[' then LinkPiece(p)
    else Verbatim(1)
  }

  function Target(env: Env, p: string, piece: Piece): string
    requires piece.Link? && Fits(p, piece)
  {
    env.dest(p[piece.mid+2..piece.end])
  }

  /** The label of a link is shown unless the link is registered. */
  predicate LabelShown(env: Env, target: string) { "#" <= target || env.link(target).None? }

  function LinkText(env: Env, p: string, piece: Piece, body: string): string
    requires piece.Link? && Fits(p, piece)
  {
    var target := Target(env, p, piece);
    if "#" <= target then "[" + body + p[piece.mid..piece.end+1]
    else match env.link(target)
      case Some(rendered) => rendered
      case None => body + UNVERIFIED_LINK
  }

  /** What a piece comes out as, once the label of a link has been dealt with. */
  function PieceText(env: Env, p: string, piece: Piece, body: string): string
    requires Fits(p, piece)
  {
    match piece
    case Replaced(_, text) => text
    case Link(_, _) => LinkText(env, p, piece, body)
    case _ => p[..piece.size]
  }

  /** A link that shows its label ends in text other than spaces. */
  function IndentBehind(env: Env, indent: Option<nat>, p: string, piece: Piece): Option<nat>
    requires Fits(p, piece)
  {
    if piece.Link? && LabelShown(env, Target(env, p, piece)) then None
    else IndentAfter(indent, PieceText(env, p, piece, ""))
  }

  function Rest(p: string, piece: Piece): (rest: string)
    requires Fits(p, piece)
    ensures |rest| < |p|
  {
    if piece.Link? then p[piece.end+1..] else p[piece.size..]
  }

  // ----- the finished text -----

  /** The text as it should come out. */
  function Render(env: Env, indent: Option<nat>, p: string): string
    decreases |p|, 1
  {
    if p == "" then ""
    else
      var piece := PieceAt(env, indent, p);
      PieceText(env, p, piece, RenderLabel(env, p, piece)) + RenderRest(env, indent, p, piece)
  }

  function RenderLabel(env: Env, p: string, piece: Piece): string
    requires Fits(p, piece)
    decreases |p|, 0
  {
    if piece.Link? then Render(env, Some(0), p[1..piece.mid]) else ""
  }

  function RenderRest(env: Env, indent: Option<nat>, p: string, piece: Piece): string
    requires Fits(p, piece)
    decreases |p|, 0
  {
    Render(env, IndentBehind(env, indent, p, piece), Rest(p, piece))
  }

  /** A backtick run that opens nothing stands at the end of the text, or at the end of the
      label of some link that shows its label. */
  predicate EndsInTicks(env: Env, indent: Option<nat>, p: string)
    decreases |p|, 1
  {
    p != "" &&
    var piece := PieceAt(env, indent, p);
    piece == Ticks(|p|) || LabelEndsInTicks(env, p, piece) || RestEndsInTicks(env, indent, p, piece)
  }

  predicate LabelEndsInTicks(env: Env, p: string, piece: Piece)
    requires Fits(p, piece)
    decreases |p|, 0
  {
    piece.Link? && LabelShown(env, Target(env, p, piece)) && EndsInTicks(env, Some(0), p[1..piece.mid])
  }

  predicate RestEndsInTicks(env: Env, indent: Option<nat>, p: string, piece: Piece)
    requires Fits(p, piece)
    decreases |p|, 0
  {
    EndsInTicks(env, IndentBehind(env, indent, p, piece), Rest(p, piece))
  }

  // ----- several moves of the scanner -----

  /** `n` final moves lead from `s` to `t`, all but the first inside code. */
  predicate Leads(env: Env, s: Scan, t: Scan, n: nat)
    decreases n
  {
    if n == 0 then s == t || (s.pending == t.pending == "" && s.out == t.out)
    else
      s.pending != "" && NextMove(env, s, true).Some? &&
      var u := Take(s, NextMove(env, s, true).value);
      (n > 1 ==> u.code != "") && Leads(env, u, t, n - 1)
  }

  lemma {:induction false} LeadsRun(env: Env, s: Scan, t: Scan, n: nat)
    requires Leads(env, s, t, n)
    ensures Run(env, s, true).out == Run(env, t, true).out
    decreases n
  {
    if n > 0 {
      var m := NextMove(env, s, true).value;
      RunStep(env, s, m, true);
      LeadsRun(env, Take(s, m), t, n - 1);
    }
  }

  lemma MovesOn(env: Env, s: Scan, u: Scan, t: Scan, n: nat, emit: string)
    requires s.pending != "" && NextMove(env, s, true) == Some(Move(emit, u.pending, u.code, u.fenced))
    requires u.out == s.out + emit && (n > 0 ==> u.code != "") && Leads(env, u, t, n)
    ensures Leads(env, s, t, n + 1)
  {
    assert Take(s, NextMove(env, s, true).value) == u;
  }

  lemma Moves(env: Env, s: Scan, t: Scan, emit: string)
    requires s.pending != "" && NextMove(env, s, true) == Some(Move(emit, t.pending, t.code, t.fenced))
    requires t.out == s.out + emit
    ensures Leads(env, s, t, 1)
  {
    assert Leads(env, t, t, 0);
    MovesOn(env, s, t, t, 0, emit);
  }

  // ----- the scanner takes the pieces one by one -----

  /** The scanner between two pieces. */
  predicate Between(s: Scan, indent: Option<nat>) { s.code == "" && !s.fenced && IndentOf(s.out) == indent }

  function Emitted(s: Scan, text: string, rest: string): Scan { Scan(rest, "", false, s.out + text) }

  /** The scanner after the first `size` characters of its text, taken as they are. */
  function Past(s: Scan, size: nat): (t: Scan)
    requires size <= |s.pending|
    ensures |t.pending| == |s.pending| - size
    decreases size
  {
    if size == 0 then Scan(s.pending, "", false, s.out)
    else
      var t := Past(s, size - 1);
      Emitted(t, t.pending[..1], t.pending[1..])
  }

  lemma {:induction false} PastIs(s: Scan, size: nat)
    requires size <= |s.pending|
    ensures Past(s, size) == Emitted(s, s.pending[..size], s.pending[size..])
    decreases size
  {
    if size == 0 {
      assert s.out + "" == s.out;
    } else {
      PastIs(s, size - 1);
      EmittedTwice(s.out, s.pending, size - 1, 1);
    }
  }

  lemma PastTwice(s: Scan, t: Scan, n: nat, k: nat)
    requires n + k <= |s.pending| && t.pending == s.pending[n..] && t.out == s.out + s.pending[..n]
    ensures Past(t, k) == Past(s, n + k)
  {
    PastIs(t, k);
    PastIs(s, n + k);
    EmittedTwice(s.out, s.pending, n, k);
  }

  lemma PlainPiece(env: Env, s: Scan, indent: Option<nat>)
    requires s.pending != "" && Between(s, indent) && s.pending[0] != '`' && s.pending[0] != '~'
    requires PieceAt(env, indent, s.pending).Verbatim?
    ensures var n := PieceAt(env, indent, s.pending).size;
            NextMove(env, s, true) == Some(Move(s.pending[..n], s.pending[n..], "", false))
  {
    var p := s.pending;
    assert p[..|p|] == p && p[|p|..] == "";
    if p[0] == '<' || p[0] == '[' { assert p[..1] == [p[0]]; }
  }

  lemma ReplacedPiece(env: Env, s: Scan, indent: Option<nat>)
    requires s.pending != "" && Between(s, indent) && PieceAt(env, indent, s.pending).Replaced?
    ensures var piece := PieceAt(env, indent, s.pending);
            NextMove(env, s, true) == Some(Move(piece.text, s.pending[piece.size..], "", false))
  {
    var p := s.pending;
    assert p[|p|..] == "";
  }

  lemma LinkedPiece(env: Env, s: Scan, indent: Option<nat>)
    requires s.pending != "" && Between(s, indent) && PieceAt(env, indent, s.pending).Link?
    ensures var (p, piece) := (s.pending, PieceAt(env, indent, s.pending));
            NextMove(env, s, true)
            == Some(Move(LinkText(env, p, piece, Normalize(env, p[1..piece.mid])), p[piece.end+1..], "", false))
  {
    var p, piece := s.pending, PieceAt(env, indent, s.pending);
    assert MoveLink(env, s, true) == Some(LinkMove(env, p, piece.mid, piece.end, false));
    assert LinkMove(env, p, piece.mid, piece.end, false).emit
        == LinkText(env, p, piece, Normalize(env, p[1..piece.mid]));
  }

  lemma TicksMove(env: Env, s: Scan, indent: Option<nat>)
    requires s.pending != "" && Between(s, indent) && (s.pending[0] == '`' || s.pending[0] == '~')
    ensures var p := s.pending;
            var n := RunEnd(p, p[0], 0);
            NextMove(env, s, true)
            == Some(if FenceOpens(indent, p, n) then Move(p[..n], p[n..], p[..n], true)
                    else if p[0] == '~' then Move(p[..n], p[n..], "", false)
                    else Move("", p[n..], p[..n], false))
  {
    FenceShown(s.out);
  }

  /** The lines of a fence go out one by one. */
  lemma {:induction false} FenceRun(env: Env, s: Scan, size: nat) returns (n: nat)
    requires s.code != "" && s.fenced && size == FenceBody(env, s.code, FenceStart(s.out), s.pending)
    ensures Leads(env, s, Past(s, size), n)
    decreases |s.pending|
  {
    n := 0;
    if s.pending != "" {
      if ClosesFence(env, s.out, s.pending[..LineEnd(s.pending)], s.code) {
        FenceEnds(env, s);
        n := 1;
      } else {
        var t, left := FenceGoesOn(env, s, size);
        n := FenceRun(env, t, left);
        FenceLine(env, s, t, Past(s, size), n);
        n := n + 1;
      }
    }
  }

  lemma FenceEnds(env: Env, s: Scan)
    requires s.pending != "" && s.code != "" && s.fenced
    requires ClosesFence(env, s.out, s.pending[..LineEnd(s.pending)], s.code)
    ensures Leads(env, s, Past(s, FenceBody(env, s.code, FenceStart(s.out), s.pending)), 1)
  {
    var end := LineEnd(s.pending);
    PastIs(s, end);
    Moves(env, s, Past(s, end), s.pending[..end]);
  }

  /** The scanner after one line inside a fence. */
  function NextLine(s: Scan): Scan
    requires s.pending != ""
  {
    var end := LineEnd(s.pending);
    Scan(s.pending[end..], s.code, true, s.out + s.pending[..end])
  }

  lemma FenceLine(env: Env, s: Scan, t: Scan, u: Scan, n: nat)
    requires s.pending != "" && s.code != "" && s.fenced && t == NextLine(s)
    requires !ClosesFence(env, s.out, s.pending[..LineEnd(s.pending)], s.code)
    requires Leads(env, t, u, n)
    ensures Leads(env, s, u, n + 1)
  {
    MovesOn(env, s, t, u, n, s.pending[..LineEnd(s.pending)]);
  }

  lemma FenceGoesOn(env: Env, s: Scan, size: nat) returns (t: Scan, left: nat)
    requires s.pending != "" && s.code != "" && s.fenced
    requires !ClosesFence(env, s.out, s.pending[..LineEnd(s.pending)], s.code)
    requires size == FenceBody(env, s.code, FenceStart(s.out), s.pending)
    ensures t == NextLine(s) && |t.pending| < |s.pending|
    ensures left == FenceBody(env, t.code, FenceStart(t.out), t.pending) && Past(t, left) == Past(s, size)
  {
    t := NextLine(s);
    left := FenceLeft(env, s, size);
    PastTwice(s, t, LineEnd(s.pending), left);
  }

  lemma FenceLeft(env: Env, s: Scan, size: nat) returns (left: nat)
    requires s.pending != "" && s.code != "" && s.fenced
    requires !ClosesFence(env, s.out, s.pending[..LineEnd(s.pending)], s.code)
    requires size == FenceBody(env, s.code, FenceStart(s.out), s.pending)
    ensures var t := NextLine(s);
            left == FenceBody(env, t.code, FenceStart(t.out), t.pending) && size == LineEnd(s.pending) + left
  {
    var t := NextLine(s);
    if t.pending != "" { LineEnds(s.out, s.pending[..LineEnd(s.pending)]); }
    left := size - LineEnd(s.pending);
    FenceLines(env, s.code, FenceStart(s.out), FenceStart(t.out), s.pending, size, left);
  }

  lemma FenceLines(env: Env, code: string, lineStart: bool, next: bool, p: string, size: nat, left: int)
    requires p != "" && code != "" && size == FenceBody(env, code, lineStart, p) && left == size - LineEnd(p)
    requires !(lineStart && ClosingLine(env, p[..LineEnd(p)], code)) && (LineEnd(p) < |p| ==> next)
    ensures left == FenceBody(env, code, next, p[LineEnd(p)..])
  {
    if LineEnd(p) == |p| { assert p[LineEnd(p)..] == ""; }
  }

  lemma LineEnds(out: string, line: string)
    requires line != "" && line[|line|-1] == '\n'
    ensures FenceStart(out + line)
  {
    assert (out + line)[|out + line|-1] == '\n';
  }

  lemma EmittedTwice(out: string, p: string, end: nat, k: nat)
    requires end + k <= |p|
    ensures out + p[..end] + p[end..][..k] == out + p[..end+k] && p[end..][k..] == p[end+k..]
  {
    assert p[..end+k] == p[..end] + p[end..][..k];
  }

  lemma NoFenceAfter(out: string, run: string)
    requires run != "" && run[|run|-1] != ' ' && run[|run|-1] != '\n'
    ensures !FenceStart(out + run) && IndentOf(out + run).None?
  {
    assert (out + run)[|out + run|-1] == run[|run|-1];
    FenceShown(out + run);
  }

  /** The scanner right after the opening run of a fence. */
  function Opened(s: Scan, n: nat): Scan
    requires n <= |s.pending|
  {
    Scan(s.pending[n..], s.pending[..n], true, s.out + s.pending[..n])
  }

  lemma FencePiece(env: Env, s: Scan, n: nat, left: nat) returns (k: nat)
    requires s.pending != "" && 0 < n <= |s.pending| && s.pending[n-1] != ' ' && s.pending[n-1] != '\n'
    requires NextMove(env, s, true) == Some(Move(s.pending[..n], s.pending[n..], s.pending[..n], true))
    requires left == FenceBody(env, s.pending[..n], false, s.pending[n..])
    ensures k > 0 && Leads(env, s, Past(s, n + left), k)
  {
    var j := OpenedRun(env, s, n, left);
    k := FenceOpening(env, s, n, left, j);
  }

  lemma FenceOpening(env: Env, s: Scan, n: nat, left: nat, j: nat) returns (k: nat)
    requires s.pending != "" && 0 < n <= |s.pending| && n + left <= |s.pending|
    requires NextMove(env, s, true) == Some(Move(s.pending[..n], s.pending[n..], s.pending[..n], true))
    requires Leads(env, Opened(s, n), Past(s, n + left), j)
    ensures k > 0 && Leads(env, s, Past(s, n + left), k)
  {
    MovesOn(env, s, Opened(s, n), Past(s, n + left), j, s.pending[..n]);
    k := j + 1;
  }

  lemma OpenedPast(s: Scan, n: nat, k: nat)
    requires n + k <= |s.pending|
    ensures Past(Opened(s, n), k) == Past(s, n + k)
  {
    PastTwice(s, Opened(s, n), n, k);
  }

  lemma OpenedNoFence(s: Scan, n: nat)
    requires 0 < n <= |s.pending| && s.pending[n-1] != ' ' && s.pending[n-1] != '\n'
    ensures !FenceStart(Opened(s, n).out)
  {
    NoFenceAfter(s.out, s.pending[..n]);
  }

  lemma OpenedRun(env: Env, s: Scan, n: nat, left: nat) returns (k: nat)
    requires 0 < n <= |s.pending| && s.pending[n-1] != ' ' && s.pending[n-1] != '\n'
    requires left == FenceBody(env, s.pending[..n], false, s.pending[n..])
    ensures Leads(env, Opened(s, n), Past(s, n + left), k)
  {
    OpenedNoFence(s, n);
    k := FenceRun(env, Opened(s, n), left);
    OpenedPast(s, n, left);
  }

  /** The scanner inside a code span: the opening run is not emitted yet. */
  function Inside(s: Scan, n: nat): Scan
    requires n <= |s.pending|
  {
    Scan(s.pending[n..], s.pending[..n], false, s.out)
  }

  lemma InsideMoves(env: Env, s: Scan, n: nat)
    requires 0 < n < |s.pending|
    ensures var end := SpanEnd(s.pending[n..], n, 0, true);
            Leads(env, Inside(s, n), Past(s, if end.Some? then n + end.value else n), 1)
  {
    var p, t, end := s.pending, Inside(s, n), SpanEnd(s.pending[n..], n, 0, true);
    if end.Some? {
      SpanText(p, n, end.value);
      PastIs(s, n + end.value);
      Moves(env, t, Past(s, n + end.value), p[..n] + p[n..][..end.value]);
    } else {
      PastIs(s, n);
      Moves(env, t, Past(s, n), p[..n]);
    }
  }

  lemma SpanText(p: string, n: nat, end: nat)
    requires n + end <= |p|
    ensures p[..n] + p[n..][..end] == p[..n+end] && p[n..][end..] == p[n+end..]
  {}

  lemma SpanPiece(env: Env, s: Scan, n: nat, size: nat)
    requires s.pending != "" && 0 < n < |s.pending| && size <= |s.pending|
    requires NextMove(env, s, true) == Some(Move("", s.pending[n..], s.pending[..n], false))
    requires var end := SpanEnd(s.pending[n..], n, 0, true); size == if end.Some? then n + end.value else n
    ensures Leads(env, s, Past(s, size), 2)
  {
    assert s.out + "" == s.out;
    InsideMoves(env, s, n);
    MovesOn(env, s, Inside(s, n), Past(s, size), 1, "");
  }

  lemma SpanPieceSize(env: Env, indent: Option<nat>, p: string)
    requires p != "" && p[0] == '`' && !FenceOpens(indent, p, RunEnd(p, p[0], 0))
    ensures var n := RunEnd(p, p[0], 0);
            var end := SpanEnd(p[n..], n, 0, true);
            PieceAt(env, indent, p) == if end.Some? then Verbatim(n + end.value) else Ticks(n)
  {}

  lemma FencePieceSize(env: Env, indent: Option<nat>, p: string)
    requires p != "" && (p[0] == '`' || p[0] == '~')
    ensures var (n, piece) := (RunEnd(p, p[0], 0), PieceAt(env, indent, p));
            && (FenceOpens(indent, p, n) ==> piece == Verbatim(n + FenceBody(env, p[..n], false, p[n..])))
            && (p[0] == '~' && !FenceOpens(indent, p, n) ==> piece == Verbatim(n))
            && p[n-1] == p[0]
  {
    RunIsUniform(p, p[0], 0);
  }

  lemma TildesRun(env: Env, s: Scan, n: nat)
    requires s.pending != "" && n <= |s.pending|
    requires NextMove(env, s, true) == Some(Move(s.pending[..n], s.pending[n..], "", false))
    ensures Leads(env, s, Past(s, n), 1)
  {
    PastIs(s, n);
    Moves(env, s, Past(s, n), s.pending[..n]);
  }

  lemma SpanTicksRun(env: Env, s: Scan, indent: Option<nat>, n: nat, size: nat)
    requires s.pending != "" && Between(s, indent) && s.pending[0] == '`' && n == RunEnd(s.pending, s.pending[0], 0)
    requires !FenceOpens(indent, s.pending, n) && PieceAt(env, indent, s.pending) != Ticks(|s.pending|)
    requires size == PieceAt(env, indent, s.pending).size
    ensures !PieceAt(env, indent, s.pending).Link?
    ensures Leads(env, s, Past(s, size), 2)
  {
    TicksMove(env, s, indent);
    SpanPieceSize(env, indent, s.pending);
    SpanPiece(env, s, n, size);
  }

  lemma FenceTicksRun(env: Env, s: Scan, indent: Option<nat>, n: nat, size: nat) returns (k: nat)
    requires s.pending != "" && Between(s, indent) && (s.pending[0] == '`' || s.pending[0] == '~')
    requires n == RunEnd(s.pending, s.pending[0], 0) && (s.pending[0] == '`' ==> FenceOpens(indent, s.pending, n))
    requires size == PieceAt(env, indent, s.pending).size
    ensures !PieceAt(env, indent, s.pending).Link?
    ensures k > 0 && Leads(env, s, Past(s, size), k)
  {
    TicksMove(env, s, indent);
    FencePieceSize(env, indent, s.pending);
    k := 1;
    if FenceOpens(indent, s.pending, n) {
      k := FencePiece(env, s, n, size - n);
    } else {
      TildesRun(env, s, n);
    }
  }

  lemma TicksRun(env: Env, s: Scan, indent: Option<nat>) returns (k: nat)
    requires s.pending != "" && Between(s, indent) && (s.pending[0] == '`' || s.pending[0] == '~')
    requires PieceAt(env, indent, s.pending) != Ticks(|s.pending|)
    ensures var piece := PieceAt(env, indent, s.pending);
            !piece.Link? && k > 0 && Leads(env, s, Past(s, piece.size), k)
  {
    var n, size := RunEnd(s.pending, s.pending[0], 0), PieceAt(env, indent, s.pending).size;
    if s.pending[0] == '`' && !FenceOpens(indent, s.pending, n) {
      SpanTicksRun(env, s, indent, n, size);
      k := 2;
    } else {
      k := FenceTicksRun(env, s, indent, n, size);
    }
  }

  /** A run that opens nothing is taken into the code first. */
  lemma TicksInside(env: Env, s: Scan, indent: Option<nat>)
    requires s.pending != "" && Between(s, indent) && PieceAt(env, indent, s.pending).Ticks?
    ensures var n := PieceAt(env, indent, s.pending).size;
            Leads(env, s, Inside(s, n), 1) && SpanEnd(s.pending[n..], n, 0, true).None?
  {
    var p := s.pending;
    TicksMove(env, s, indent);
    assert s.out + "" == s.out;
    Moves(env, s, Inside(s, RunEnd(p, p[0], 0)), "");
  }

  /** The label a link shows: it is normalized as a text of its own. */
  function Label(env: Env, p: string, piece: Piece): string
    requires Fits(p, piece)
  {
    if piece.Link? then Normalize(env, p[1..piece.mid]) else ""
  }

  /** The scanner after one piece. */
  function Behind(env: Env, s: Scan, piece: Piece): (t: Scan)
    requires Fits(s.pending, piece)
    ensures |t.pending| < |s.pending|
  {
    Emitted(s, PieceText(env, s.pending, piece, Label(env, s.pending, piece)), Rest(s.pending, piece))
  }

  lemma BehindPast(env: Env, s: Scan, piece: Piece)
    requires Fits(s.pending, piece) && (piece.Verbatim? || piece.Ticks?)
    ensures Behind(env, s, piece) == Past(s, piece.size)
  {
    PastIs(s, piece.size);
  }

  lemma PieceRun(env: Env, s: Scan, indent: Option<nat>) returns (k: nat)
    requires s.pending != "" && Between(s, indent) && PieceAt(env, indent, s.pending) != Ticks(|s.pending|)
    ensures k > 0 && Leads(env, s, Behind(env, s, PieceAt(env, indent, s.pending)), k)
  {
    var piece := PieceAt(env, indent, s.pending);
    k := 1;
    if s.pending[0] == '`' || s.pending[0] == '~' {
      k := TicksRun(env, s, indent);
      BehindPast(env, s, piece);
    } else {
      OtherPiece(env, s, indent);
    }
  }

  lemma OtherPiece(env: Env, s: Scan, indent: Option<nat>)
    requires s.pending != "" && Between(s, indent) && s.pending[0] != '`' && s.pending[0] != '~'
    ensures Leads(env, s, Behind(env, s, PieceAt(env, indent, s.pending)), 1)
  {
    var p, piece := s.pending, PieceAt(env, indent, s.pending);
    match piece
    case Verbatim(_) => PlainPiece(env, s, indent);
    case Replaced(_, _) => ReplacedPiece(env, s, indent);
    case Link(_, _) => LinkedPiece(env, s, indent);
    Moves(env, s, Behind(env, s, piece), PieceText(env, p, piece, Label(env, p, piece)));
  }

  lemma BehindBetween(env: Env, s: Scan, indent: Option<nat>, piece: Piece)
    requires Fits(s.pending, piece) && Between(s, indent)
    ensures Between(Behind(env, s, piece), IndentBehind(env, indent, s.pending, piece))
  {
    var p, body := s.pending, Label(env, s.pending, piece);
    var text := PieceText(env, p, piece, body);
    if piece.Link? && LabelShown(env, Target(env, p, piece)) {
      ShownIsNotBlank(env, p, piece, body);
      NoFenceAfter(s.out, text);
    } else {
      assert text == PieceText(env, p, piece, "");
      IndentConcat(Some(0), s.out, text);
    }
  }

  lemma ShownIsNotBlank(env: Env, p: string, piece: Piece, body: string)
    requires piece.Link? && Fits(p, piece) && LabelShown(env, Target(env, p, piece))
    ensures var text := LinkText(env, p, piece, body);
            text != "" && text[|text|-1] != ' ' && text[|text|-1] != '\n'
  {
    var text := LinkText(env, p, piece, body);
    if "#" <= Target(env, p, piece) {
      assert text[|text|-1] == p[piece.end] == ')';
    } else {
      assert text[|text|-1] == UNVERIFIED_LINK[|UNVERIFIED_LINK|-1];
    }
  }

  // ----- what the scanner makes of the text -----

  /** A final output is the right one, or shorter when a run is lost. */
  ghost predicate RightOrShorter(out: string, rendered: string, lost: bool) {
    if lost then |out| < |rendered| else out == rendered
  }

  ghost predicate Agrees(env: Env, s: Scan, indent: Option<nat>) {
    RightOrShorter(Run(env, s, true).out, s.out + Render(env, indent, s.pending), EndsInTicks(env, indent, s.pending))
  }

  /** One piece that came out as `shown` where `meant` is right, and then the rest. */
  lemma AfterShown(out: string, shown: string, meant: string, tail: string, result: string, lost: bool, later: bool)
    requires RightOrShorter(shown, meant, lost) && RightOrShorter(result, out + shown + tail, later)
    ensures RightOrShorter(result, out + (meant + tail), lost || later)
  {
    if !lost && !later { assert out + (meant + tail) == out + meant + tail; }
  }

  lemma TextAgrees(env: Env, p: string, piece: Piece, shown: string, meant: string, lost: bool)
    requires Fits(p, piece) && (piece.Link? ==> RightOrShorter(shown, meant, lost))
    ensures RightOrShorter(PieceText(env, p, piece, shown), PieceText(env, p, piece, meant),
                           piece.Link? && LabelShown(env, Target(env, p, piece)) && lost)
  {}

  lemma {:induction false} LabelAgrees(env: Env, p: string, piece: Piece)
    requires Fits(p, piece)
    ensures RightOrShorter(PieceText(env, p, piece, Label(env, p, piece)),
                           PieceText(env, p, piece, RenderLabel(env, p, piece)), LabelEndsInTicks(env, p, piece))
    decreases |p|, 0
  {
    if piece.Link? {
      var inner := p[1..piece.mid];
      NormalizeAgrees(env, inner);
      TextAgrees(env, p, piece, Normalize(env, inner), Render(env, Some(0), inner), EndsInTicks(env, Some(0), inner));
    }
  }

  lemma {:induction false} NormalizeAgrees(env: Env, text: string)
    ensures RightOrShorter(Normalize(env, text), Render(env, Some(0), text), EndsInTicks(env, Some(0), text))
    decreases |text|, 2
  {
    ScannerAgrees(env, START.(pending := text), Some(0));
    assert "" + Render(env, Some(0), text) == Render(env, Some(0), text);
  }

  lemma {:induction false} RestAgrees(env: Env, s: Scan, indent: Option<nat>, piece: Piece)
    requires Fits(s.pending, piece) && Between(s, indent)
    ensures var (p, t) := (s.pending, Behind(env, s, piece));
            RightOrShorter(Run(env, t, true).out, t.out + RenderRest(env, indent, p, piece),
                           RestEndsInTicks(env, indent, p, piece))
    decreases |s.pending|, 0
  {
    BehindBetween(env, s, indent, piece);
    ScannerAgrees(env, Behind(env, s, piece), IndentBehind(env, indent, s.pending, piece));
  }

  lemma {:induction false} ScannerAgrees(env: Env, s: Scan, indent: Option<nat>)
    requires Between(s, indent)
    ensures Agrees(env, s, indent)
    decreases |s.pending|, 1
  {
    var p := s.pending;
    if p == "" {
      assert s.out + "" == s.out;
    } else if PieceAt(env, indent, p) == Ticks(|p|) {
      LostAtEnd(env, s, indent);
    } else {
      var piece := PieceAt(env, indent, p);
      var n := PieceRun(env, s, indent);
      LeadsRun(env, s, Behind(env, s, piece), n);
      RestAgrees(env, s, indent, piece);
      LabelAgrees(env, p, piece);
      AfterShown(s.out, PieceText(env, p, piece, Label(env, p, piece)),
                 PieceText(env, p, piece, RenderLabel(env, p, piece)), RenderRest(env, indent, p, piece),
                 Run(env, s, true).out, LabelEndsInTicks(env, p, piece), RestEndsInTicks(env, indent, p, piece));
    }
  }

  lemma LostAtEnd(env: Env, s: Scan, indent: Option<nat>)
    requires s.pending != "" && Between(s, indent) && PieceAt(env, indent, s.pending) == Ticks(|s.pending|)
    ensures Agrees(env, s, indent)
  {
    TicksInside(env, s, indent);
    LeadsRun(env, s, Inside(s, |s.pending|), 1);
    assert |Render(env, indent, s.pending)| >= |s.pending|;
  }

  /** The whole text comes out right if and only if no run that opens nothing stands at its
      end or at the end of a shown link label; otherwise something is missing. */
  lemma RightUnlessEndsInTicks(env: Env, text: string)
    ensures Normalize(env, text) == Render(env, Some(0), text) <==> !EndsInTicks(env, Some(0), text)
    ensures EndsInTicks(env, Some(0), text) ==> |Normalize(env, text)| < |Render(env, Some(0), text)|
  {
    NormalizeAgrees(env, text);
  }
}
