/** What a text comes out as, piece by piece, with every name, delimiter and marker spelled
    out: one law for each kind of beginning. Together with the agreement of scanner and
    rendering they say what the rewriter answers. */
module CitationPieces {
  import opened CitationRender
  import opened CitationScan
  import opened CitationSyntax
  import opened Options

  // ----- the indentation of a line -----

  /** So many spaces, and nothing else, stand on the last line. */
  predicate IndentIs(out: string, n: nat) {
    && n <= |out| && (forall k :: |out| - n <= k < |out| ==> out[k] == ' ')
    && (n < |out| ==> out[|out|-n-1] == '\n')
  }

  lemma {:induction false} IndentMeans(out: string, n: nat)
    ensures IndentOf(out) == Some(n) <==> IndentIs(out, n)
    decreases |out|
  {
    if out != "" {
      var init := out[..|out|-1];
      if n > 0 { IndentMeans(init, n - 1); }
      if out[|out|-1] == ' ' && IndentOf(init).Some? { IndentMeans(init, IndentOf(init).value); }
    }
  }

  // ----- one piece and the rest -----

  lemma VerbatimRenders(env: Env, indent: Option<nat>, p: string, n: nat)
    requires p != "" && PieceAt(env, indent, p) in {Verbatim(n), Ticks(n)}
    ensures n <= |p| && Render(env, indent, p) == p[..n] + Render(env, IndentAfter(indent, p[..n]), p[n..])
  {}

  lemma ReplacedRenders(env: Env, indent: Option<nat>, p: string, n: nat, text: string)
    requires p != "" && PieceAt(env, indent, p) == Replaced(n, text)
    ensures n <= |p| && Render(env, indent, p) == text + Render(env, IndentAfter(indent, text), p[n..])
  {}

  lemma NothingLeft(env: Env, indent: Option<nat>, p: string, text: string)
    requires p != "" && PieceAt(env, indent, p) == Replaced(|p|, text)
    ensures Render(env, indent, p) == text
  {
    ReplacedRenders(env, indent, p, |p|, text);
    Ended(env, IndentAfter(indent, text), p[|p|..]);
    assert text + "" == text;
  }

  lemma Ended(env: Env, indent: Option<nat>, p: string)
    requires p == ""
    ensures Render(env, indent, p) == ""
  {}

  // ----- ordinary text and escapes -----

  lemma PlainRenders(env: Env, indent: Option<nat>, p: string)
    requires p != "" && p[0] != '\\' && p[0] != '`' && p[0] != '~' && p[0] != '<' && p[0] != '['
    ensures Render(env, indent, p) == p[..1] + Render(env, IndentAfter(indent, p[..1]), p[1..])
  {
    VerbatimRenders(env, indent, p, 1);
  }

  /** An escaped character means nothing. */
  lemma EscapeRenders(env: Env, indent: Option<nat>, p: string)
    requires p != "" && p[0] == '\\'
    ensures var n := if |p| == 1 then 1 else 2;
            Render(env, indent, p) == p[..n] + Render(env, IndentAfter(indent, p[..n]), p[n..])
  {
    VerbatimRenders(env, indent, p, if |p| == 1 then 1 else 2);
  }

  // ----- tags -----

  predicate IsName(kind: Kind, name: string) {
    match kind
    case Cite => name == "<cite"
    case Kb => name == "<kb"
    case Web => name == "<web"
  }

  lemma TagHere(env: Env, indent: Option<nat>, p: string, kind: Kind, name: string)
    requires IsName(kind, name) && Names(p, name)
    ensures p != "" && p[0] == '<' && PrefixOf(p) == Full(kind) && PieceAt(env, indent, p) == TagPiece(env, p)
  {
    TagNames(p);
    assert SameLetter(p[0], name[0]);
  }

  /** A complete tag is resolved, and nothing else of the text is touched. */
  lemma TagRenders(env: Env, indent: Option<nat>, p: string, kind: Kind, name: string, k: nat)
    requires IsName(kind, name) && Names(p, name) && TagStopsAt(p, k)
    ensures var shown := env.tag(kind, p[..k+1]);
            Render(env, indent, p) == shown + Render(env, IndentAfter(indent, shown), p[k+1..])
  {
    WholeTag(env, indent, p, kind, name, k);
    ReplacedRenders(env, indent, p, k + 1, env.tag(kind, p[..k+1]));
  }

  lemma WholeTag(env: Env, indent: Option<nat>, p: string, kind: Kind, name: string, k: nat)
    requires IsName(kind, name) && Names(p, name) && TagStopsAt(p, k)
    ensures p != "" && PieceAt(env, indent, p) == Replaced(k + 1, env.tag(kind, p[..k+1]))
  {
    TagHere(env, indent, p, kind, name);
    TagEndsFirst(p, k);
  }

  /** A tag that never ends takes the rest of the text with it. */
  lemma OpenTagRenders(env: Env, indent: Option<nat>, p: string, kind: Kind, name: string)
    requires IsName(kind, name) && (Names(p, name) || (MayName(p, name) && |p| == |name|)) && TagNeverStops(p)
    ensures Render(env, indent, p) == "（来源未核验）"
  {
    OpenTag(env, indent, p, kind, name);
    NothingLeft(env, indent, p, "（来源未核验）");
  }

  lemma OpenTag(env: Env, indent: Option<nat>, p: string, kind: Kind, name: string)
    requires IsName(kind, name) && (Names(p, name) || (MayName(p, name) && |p| == |name|)) && TagNeverStops(p)
    ensures p != "" && PieceAt(env, indent, p) == Replaced(|p|, "（来源未核验）")
  {
    TagNames(p);
    assert SameLetter(p[0], name[0]);
    TagEndsFirst(p, 0);
  }

  /** Any other `<` is ordinary text. */
  lemma NoTagRenders(env: Env, indent: Option<nat>, p: string)
    requires p != "" && p[0] == '<'
    requires !Names(p, "<cite") && !Names(p, "<kb") && !Names(p, "<web")
    requires !MayName(p, "<cite") && !MayName(p, "<kb") && !MayName(p, "<web")
    ensures Render(env, indent, p) == p[..1] + Render(env, IndentAfter(indent, p[..1]), p[1..])
  {
    NoName(env, indent, p);
    VerbatimRenders(env, indent, p, 1);
  }

  lemma NoName(env: Env, indent: Option<nat>, p: string)
    requires p != "" && p[0] == '<'
    requires !Names(p, "<cite") && !Names(p, "<kb") && !Names(p, "<web")
    requires !MayName(p, "<cite") && !MayName(p, "<kb") && !MayName(p, "<web")
    ensures PieceAt(env, indent, p) == Verbatim(1)
  {
    TagNames(p);
    NoKind(p);
  }

  lemma NoKind(p: string)
    requires PrefixOf(p) != Full(Cite) && PrefixOf(p) != Full(Kb) && PrefixOf(p) != Full(Web) && !PrefixOf(p).Partial?
    ensures PrefixOf(p).NoTag?
  {}

  /** So is an unfinished name at the end of the text. */
  lemma PartOfNameRenders(env: Env, indent: Option<nat>, p: string, kind: Kind, name: string)
    requires p != "" && IsName(kind, name) && MayName(p, name) && |p| < |name|
    ensures Render(env, indent, p) == p
  {
    UnfinishedName(env, indent, p, kind, name);
    VerbatimRenders(env, indent, p, |p|);
    Ended(env, IndentAfter(indent, p[..|p|]), p[|p|..]);
    assert p[..|p|] + "" == p;
  }

  lemma UnfinishedName(env: Env, indent: Option<nat>, p: string, kind: Kind, name: string)
    requires p != "" && IsName(kind, name) && MayName(p, name) && |p| < |name|
    ensures PieceAt(env, indent, p) == Verbatim(|p|)
  {
    TagNames(p);
    assert SameLetter(p[0], name[0]);
    if |p| > 1 { assert SameLetter(p[1], name[1]); }
  }

  // ----- links -----

  /** A label ends at `mid` and the target behind it at `end`. */
  predicate LinkAt(p: string, mid: nat, end: nat) {
    && p != "" && p[0] == '[' && mid + 1 < end < |p| && p[mid+1] == '('
    && ClosedAt(p, '[', ']', mid) && ClosedAt(p[mid+1..], '(', ')', end - mid - 1)
  }

  lemma LinkHere(env: Env, indent: Option<nat>, p: string, mid: nat, end: nat)
    requires LinkAt(p, mid, end)
    ensures PieceAt(env, indent, p) == Link(mid, end) && mid > 0
  {
    ClosesFirst(p, '[', ']', mid);
    ClosesFirst(p[mid+1..], '(', ')', end - mid - 1);
  }

  /** A link comes out as `text`, and the text behind it as if it stood alone. */
  lemma LinkRenders(
    env: Env, indent: Option<nat>, p: string, mid: nat, end: nat, body: string, text: string, rest: Option<nat>)
    requires p != "" && PieceAt(env, indent, p) == Link(mid, end)
    requires body == Render(env, Some(0), p[1..mid]) && text == LinkText(env, p, Link(mid, end), body)
    requires rest == IndentBehind(env, indent, p, Link(mid, end))
    ensures Render(env, indent, p) == text + Render(env, rest, p[end+1..])
  {
    LabelRenders(env, p, Link(mid, end), p[1..mid], body);
    RestRenders(env, indent, p, Link(mid, end), rest, p[end+1..], Render(env, rest, p[end+1..]));
    PieceRenders(env, indent, p, Link(mid, end));
  }

  lemma PieceRenders(env: Env, indent: Option<nat>, p: string, piece: Piece)
    requires p != "" && piece == PieceAt(env, indent, p)
    ensures Render(env, indent, p)
            == PieceText(env, p, piece, RenderLabel(env, p, piece)) + RenderRest(env, indent, p, piece)
  {}

  lemma LabelRenders(env: Env, p: string, link: Piece, inner: string, body: string)
    requires link.Link? && Fits(p, link) && inner == p[1..link.mid] && body == Render(env, Some(0), inner)
    ensures RenderLabel(env, p, link) == body
  {}

  lemma RestRenders(env: Env, indent: Option<nat>, p: string, link: Piece, rest: Option<nat>, q: string, after: string)
    requires link.Link? && Fits(p, link) && rest == IndentBehind(env, indent, p, link)
    requires q == p[link.end+1..] && after == Render(env, rest, q)
    ensures RenderRest(env, indent, p, link) == after
  {
    RestIs(p, link, q);
  }

  lemma RestIs(p: string, link: Piece, q: string)
    requires link.Link? && Fits(p, link) && q == p[link.end+1..]
    ensures Rest(p, link) == q
  {}

  /** A link within the page stays as it is, its label rewritten as a text of its own. */
  lemma AnchorRenders(env: Env, indent: Option<nat>, p: string, mid: nat, end: nat)
    requires LinkAt(p, mid, end) && "#" <= env.dest(p[mid+2..end])
    ensures mid > 0 && Render(env, indent, p)
                       == "[" + Render(env, Some(0), p[1..mid]) + p[mid..end+1] + Render(env, None, p[end+1..])
  {
    var body := Render(env, Some(0), p[1..mid]);
    AnchorIs(env, indent, p, mid, end, body);
    LinkRenders(env, indent, p, mid, end, body, "[" + body + p[mid..end+1], None);
  }

  lemma AnchorIs(env: Env, indent: Option<nat>, p: string, mid: nat, end: nat, body: string)
    requires LinkAt(p, mid, end) && "#" <= env.dest(p[mid+2..end])
    ensures p != "" && PieceAt(env, indent, p) == Link(mid, end)
    ensures LinkText(env, p, Link(mid, end), body) == "[" + body + p[mid..end+1]
    ensures IndentBehind(env, indent, p, Link(mid, end)) == None
  {
    LinkHere(env, indent, p, mid, end);
  }

  /** A registered link is shown as its source. */
  lemma RegisteredRenders(env: Env, indent: Option<nat>, p: string, mid: nat, end: nat, shown: string)
    requires LinkAt(p, mid, end) && !("#" <= env.dest(p[mid+2..end]))
    requires env.link(env.dest(p[mid+2..end])) == Some(shown)
    ensures Render(env, indent, p) == shown + Render(env, IndentAfter(indent, shown), p[end+1..])
  {
    var body := Render(env, Some(0), p[1..mid]);
    RegisteredIs(env, indent, p, mid, end, body, shown);
    LinkRenders(env, indent, p, mid, end, body, shown, IndentAfter(indent, shown));
  }

  lemma RegisteredIs(env: Env, indent: Option<nat>, p: string, mid: nat, end: nat, body: string, shown: string)
    requires LinkAt(p, mid, end) && !("#" <= env.dest(p[mid+2..end]))
    requires env.link(env.dest(p[mid+2..end])) == Some(shown)
    ensures p != "" && PieceAt(env, indent, p) == Link(mid, end)
    ensures LinkText(env, p, Link(mid, end), body) == shown
    ensures IndentBehind(env, indent, p, Link(mid, end)) == IndentAfter(indent, shown)
  {
    LinkHere(env, indent, p, mid, end);
  }

  /** Any other link gives way to its label and a marker. */
  lemma UnknownLinkRenders(env: Env, indent: Option<nat>, p: string, mid: nat, end: nat)
    requires LinkAt(p, mid, end) && !("#" <= env.dest(p[mid+2..end])) && env.link(env.dest(p[mid+2..end])).None?
    ensures mid > 0 && Render(env, indent, p)
                       == Render(env, Some(0), p[1..mid]) + "（链接未核验）" + Render(env, None, p[end+1..])
  {
    var body := Render(env, Some(0), p[1..mid]);
    UnknownIs(env, indent, p, mid, end, body);
    LinkRenders(env, indent, p, mid, end, body, body + "（链接未核验）", None);
  }

  lemma UnknownIs(env: Env, indent: Option<nat>, p: string, mid: nat, end: nat, body: string)
    requires LinkAt(p, mid, end) && !("#" <= env.dest(p[mid+2..end])) && env.link(env.dest(p[mid+2..end])).None?
    ensures p != "" && PieceAt(env, indent, p) == Link(mid, end)
    ensures LinkText(env, p, Link(mid, end), body) == body + "（链接未核验）"
    ensures IndentBehind(env, indent, p, Link(mid, end)) == None
  {
    LinkHere(env, indent, p, mid, end);
  }

  /** A target that never ends takes the rest of the text with it. */
  lemma OpenLinkRenders(env: Env, indent: Option<nat>, p: string, mid: nat)
    requires p != "" && p[0] == '[' && mid + 1 < |p| && p[mid+1] == '('
    requires ClosedAt(p, '[', ']', mid) && NeverClosed(p[mid+1..], '(', ')')
    ensures Render(env, indent, p) == "（链接未核验）"
  {
    ClosesFirst(p, '[', ']', mid);
    ClosesFirst(p[mid+1..], '(', ')', 0);
    NothingLeft(env, indent, p, "（链接未核验）");
  }

  /** Any other `[` is ordinary text. */
  lemma NoLinkRenders(env: Env, indent: Option<nat>, p: string)
    requires p != "" && p[0] == '['
    requires forall mid :: 0 <= mid < |p| - 1 && ClosedAt(p, '[', ']', mid) ==> p[mid+1] != '('
    ensures Render(env, indent, p) == p[..1] + Render(env, IndentAfter(indent, p[..1]), p[1..])
  {
    var found := Closing(p, '[', ']', 0, 0);
    if found.Some? { ClosesFirst(p, '[', ']', found.value); }
    VerbatimRenders(env, indent, p, 1);
  }

  // ----- code spans and fences -----

  /** A run of exactly `n` backticks or tildes opens the text. */
  predicate RunAhead(p: string, n: nat) {
    && 0 < n <= |p| && (p[0] == '`' || p[0] == '~') && (forall k :: 0 <= k < n ==> p[k] == p[0])
    && (n < |p| ==> p[n] != p[0])
  }

  lemma {:induction false} RunIs(p: string, c: char, i: nat, n: nat)
    requires i <= n <= |p| && (forall k :: i <= k < n ==> p[k] == c) && (n < |p| ==> p[n] != c)
    ensures RunEnd(p, c, i) == n
    decreases n - i
  {
    if i < n { RunIs(p, c, i + 1, n); }
  }

  /** The run may open a fence: three or more, at most three spaces in front of it on its
      line, and no backtick behind a backtick fence on that line. */
  predicate FenceAhead(indent: Option<nat>, p: string, n: nat)
    requires 0 < n <= |p|
  {
    && n >= 3 && (indent == Some(0) || indent == Some(1) || indent == Some(2) || indent == Some(3))
    && (p[0] == '`' ==> forall k :: n <= k < |p| && p[k] == '`' ==> exists j :: n <= j < k && p[j] == '\n')
  }

  lemma FenceAheadOpens(indent: Option<nat>, p: string, n: nat)
    requires RunAhead(p, n)
    ensures RunEnd(p, p[0], 0) == n && (FenceOpens(indent, p, n) <==> FenceAhead(indent, p, n))
  {
    var nl := IndexFrom(p, '\n', n);
    RunIs(p, p[0], 0, n);
    IndexSkips(p, '\n', n);
    if k :| n <= k < nl && p[k] == '`' {
      assert p[n..nl][k-n] == '`';
    } else {
      assert '`' !in p[n..nl];
    }
  }

  /** Inside a fence nothing is touched. */
  lemma FenceRenders(env: Env, indent: Option<nat>, p: string, n: nat, size: nat)
    requires RunAhead(p, n) && FenceAhead(indent, p, n) && FenceStops(env, p, n, n, size)
    ensures Render(env, indent, p) == p[..size] + Render(env, IndentAfter(indent, p[..size]), p[size..])
  {
    FenceAheadOpens(indent, p, n);
    var stop := n + FenceBody(env, p[..n], false, p[n..]);
    FenceBodyStops(env, p, n, p[..n], n, p[n..], false, stop);
    StopsOnce(env, p, n, n, size, stop);
    VerbatimRenders(env, indent, p, size);
  }

  /** Nor in a code span, which ends with the first run as long as the one that opens it. */
  lemma SpanRenders(env: Env, indent: Option<nat>, p: string, n: nat, e: nat)
    requires RunAhead(p, n) && p[0] == '`' && !FenceAhead(indent, p, n) && SpanStopsAt(p[n..], n, e)
    ensures n + e <= |p| && Render(env, indent, p) == p[..n+e] + Render(env, IndentAfter(indent, p[..n+e]), p[n+e..])
  {
    FenceAheadOpens(indent, p, n);
    SpanEndsFirst(p[n..], n, e, true);
    VerbatimRenders(env, indent, p, n + e);
  }

  /** A run that opens nothing is ordinary text. */
  lemma RunRenders(env: Env, indent: Option<nat>, p: string, n: nat)
    requires RunAhead(p, n) && !FenceAhead(indent, p, n) && (p[0] == '`' ==> SpanNeverStops(p[n..], n))
    ensures Render(env, indent, p) == p[..n] + Render(env, IndentAfter(indent, p[..n]), p[n..])
  {
    FenceAheadOpens(indent, p, n);
    SpanEndsFirst(p[n..], n, 0, true);
    VerbatimRenders(env, indent, p, n);
  }

  // ----- where a fence ends -----

  /** A line of its own stands between `i` and `end`. */
  predicate LineAt(p: string, i: nat, end: nat) {
    && 0 < i < end <= |p| && p[i-1] == '\n' && (forall k :: i <= k < end - 1 ==> p[k] != '\n')
    && (end < |p| ==> p[end-1] == '\n')
  }

  /** The line closes a fence: at most three spaces, a run of `c` no shorter than the one
      that opened the fence, and nothing visible. */
  ghost predicate FenceLine(env: Env, p: string, c: char, n: nat, i: nat, end: nat) {
    LineAt(p, i, end) && exists a: nat, b: nat :: FenceLineParts(env, p, c, n, i, a, b, end)
  }

  predicate FenceLineParts(env: Env, p: string, c: char, n: nat, i: nat, a: nat, b: nat, end: nat) {
    && i <= a <= i + 3 && a + n <= b <= end <= |p|
    && (forall k :: i <= k < a ==> p[k] == ' ') && (forall k :: a <= k < b ==> p[k] == c)
    && (b < end ==> p[b] != c) && env.blank(p[b..end])
  }

  lemma ClosingMeans(env: Env, p: string, n: nat, i: nat, end: nat)
    requires RunAhead(p, n) && n <= i && LineAt(p, i, end)
    ensures ClosingLine(env, p[i..end], p[..n]) <==> FenceLine(env, p, p[0], n, i, end)
  {
    if ClosingLine(env, p[i..end], p[..n]) { ClosingParts(env, p, n, i, end); }
    if FenceLine(env, p, p[0], n, i, end) {
      var a: nat, b: nat :| FenceLineParts(env, p, p[0], n, i, a, b, end);
      PartsClose(env, p, n, i, end, a, b);
    }
  }

  lemma ClosingParts(env: Env, p: string, n: nat, i: nat, end: nat)
    requires RunAhead(p, n) && n <= i && LineAt(p, i, end) && ClosingLine(env, p[i..end], p[..n])
    ensures FenceLine(env, p, p[0], n, i, end)
  {
    var line := p[i..end];
    var x, w := LineParts(env, line, p[..n], p[0]);
    assert line[x+w..] == p[i+x+w..end];
    assert FenceLineParts(env, p, p[0], n, i, i + x, i + x + w, end) by {
      assert forall k :: 0 <= k < |line| ==> line[k] == p[i+k];
      forall k | i <= k < i + x ensures p[k] == ' ' { assert line[k-i] == ' '; }
      forall k | i + x <= k < i + x + w ensures p[k] == p[0] { assert line[k-i] == p[0]; }
    }
  }

  lemma LineParts(env: Env, line: string, code: string, c: char) returns (x: nat, w: nat)
    requires code != "" && (forall k :: 0 <= k < |code| ==> code[k] == c) && ClosingLine(env, line, code)
    ensures x <= 3 && |code| <= w && x + w <= |line| && (forall k :: 0 <= k < x ==> line[k] == ' ')
    ensures (forall k :: x <= k < x + w ==> line[k] == c) && (x + w < |line| ==> line[x+w] != c)
    ensures env.blank(line[x+w..])
  {
    x := Leading(line);
    var trimmed := line[x..];
    w := RunEnd(trimmed, c, 0);
    RunIsUniform(line, ' ', 0);
    RunIsUniform(trimmed, c, 0);
    ShortRun(trimmed, code, c, w);
    DropTwice(line, x, w);
    assert forall k :: 0 <= k < |trimmed| ==> trimmed[k] == line[x+k];
    forall k | x <= k < x + w ensures line[k] == c { assert trimmed[k-x] == c; }
  }

  lemma ShortRun(s: string, run: string, c: char, r: nat)
    requires run <= s && r == RunEnd(s, c, 0) && forall k :: 0 <= k < |run| ==> run[k] == c
    ensures |run| <= r
  {
    assert forall k :: 0 <= k < |run| ==> s[k] == run[k];
  }

  lemma PartsClose(env: Env, p: string, n: nat, i: nat, end: nat, a: nat, b: nat)
    requires RunAhead(p, n) && i <= end <= |p| && FenceLineParts(env, p, p[0], n, i, a, b, end)
    ensures ClosingLine(env, p[i..end], p[..n])
  {
    var line := p[i..end];
    assert forall k :: 0 <= k < |line| ==> line[k] == p[i+k];
    assert line[(a-i)+(b-a)..] == p[b..end];
    LineCloses(env, line, p[..n], p[0], a - i, b - a);
  }

  lemma LineCloses(env: Env, line: string, code: string, c: char, x: nat, w: nat)
    requires code != "" && c != ' ' && (forall k :: 0 <= k < |code| ==> code[k] == c)
    requires x <= 3 && |code| <= w && x + w <= |line| && (forall k :: 0 <= k < x ==> line[k] == ' ')
    requires (forall k :: x <= k < x + w ==> line[k] == c) && (x + w < |line| ==> line[x+w] != c)
    requires env.blank(line[x+w..])
    ensures ClosingLine(env, line, code)
  {
    RunIs(line, ' ', 0, x);
    var trimmed := line[x..];
    assert forall k :: 0 <= k < |trimmed| ==> trimmed[k] == line[x+k];
    RunIs(trimmed, c, 0, w);
    assert trimmed[w..] == line[x+w..];
    SameRun(trimmed, code, c, |code|);
    assert code[..|code|] == code;
  }

  lemma SameRun(s: string, p: string, c: char, n: nat)
    requires n <= |s| && n <= |p| && (forall k :: 0 <= k < n ==> s[k] == c) && forall k :: 0 <= k < n ==> p[k] == c
    ensures p[..n] <= s
  {}

  /** The first closing line behind `i`, or the end of the text. */
  ghost predicate FenceStops(env: Env, p: string, n: nat, from: nat, size: nat)
    requires p != ""
  {
    && from <= size <= |p| && (size < |p| ==> exists i: nat :: from <= i && FenceLine(env, p, p[0], n, i, size))
    && forall i: nat, end: nat :: from <= i && FenceLine(env, p, p[0], n, i, end) ==> size <= end
  }

  lemma LineFrom(p: string, i: nat)
    requires i < |p|
    ensures var end := i + LineEnd(p[i..]);
            && i < end <= |p| && (forall k :: i <= k < end - 1 ==> p[k] != '\n') && (end < |p| ==> p[end-1] == '\n')
  {
    var nl := IndexFrom(p[i..], '\n', 0);
    IndexSkips(p[i..], '\n', 0);
    forall k | i <= k < i + nl ensures p[k] != '\n' { assert p[i..][k-i] != '\n'; }
  }

  /** Only the line at `i` can close the fence before `end`. */
  lemma OneLine(env: Env, p: string, n: nat, i: nat, end: nat)
    requires RunAhead(p, n) && n <= i < end <= |p| && (forall k :: i <= k < end - 1 ==> p[k] != '\n')
    requires end < |p| ==> p[end-1] == '\n'
    ensures forall j: nat, e: nat :: i <= j < end && FenceLine(env, p, p[0], n, j, e) ==> j == i && e == end
  {}

  lemma {:induction false} FenceBodyStops(
    env: Env, p: string, n: nat, code: string, i: nat, q: string, first: bool, size: nat)
    requires RunAhead(p, n) && code == p[..n] && n <= i <= |p| && q == p[i..]
    requires i < |p| ==> (first <==> p[i-1] == '\n')
    requires size == i + FenceBody(env, code, first, q)
    ensures FenceStops(env, p, n, i, size)
    decreases |p| - i
  {
    if i < |p| {
      var next, after, closes := FenceStep(env, p, n, code, i, q, first, size);
      if !closes { FenceBodyStops(env, p, n, code, next, after, true, size); }
    } else {
      NoMoreLines(env, p, n, size);
    }
  }

  lemma NoMoreLines(env: Env, p: string, n: nat, size: nat)
    requires p != "" && size == |p|
    ensures FenceStops(env, p, n, |p|, size)
  {}

  lemma LineCut(p: string, i: nat, q: string) returns (end: nat, after: string)
    requires i < |p| && q == p[i..]
    ensures end == LineEnd(q) && i < i + end <= |p| && after == q[end..] == p[i+end..]
    ensures i + end < |p| ==> p[i+end-1] == '\n'
  {
    end := LineEnd(q);
    after := q[end..];
    LineFrom(p, i);
    DropTwice(p, i, end);
  }

  lemma BodyStep(env: Env, code: string, first: bool, q: string, end: nat, after: string) returns (closes: bool)
    requires code != "" && q != "" && end == LineEnd(q) && after == q[end..]
    ensures closes <==> first && ClosingLine(env, q[..end], code)
    ensures FenceBody(env, code, first, q) == if closes then end else end + FenceBody(env, code, true, after)
  {
    closes := first && ClosingLine(env, q[..end], code);
  }

  lemma FenceStep(env: Env, p: string, n: nat, code: string, i: nat, q: string, first: bool, size: nat)
    returns (next: nat, after: string, closes: bool)
    requires RunAhead(p, n) && code == p[..n] && n <= i < |p| && q == p[i..] && (first <==> p[i-1] == '\n')
    ensures i < next <= |p| && after == p[next..] && (next < |p| ==> p[next-1] == '\n')
    requires size == i + FenceBody(env, code, first, q)
    ensures if closes then FenceStops(env, p, n, i, size)
            else size == next + FenceBody(env, code, true, after)
                 && (FenceStops(env, p, n, next, size) ==> FenceStops(env, p, n, i, size))
  {
    var end;
    end, after := LineCut(p, i, q);
    next := i + end;
    closes := BodyStep(env, code, first, q, end, after);
    LineDecides(env, p, n, i, q, first, end, closes, next, size);
  }

  lemma LineDecides(
    env: Env, p: string, n: nat, i: nat, q: string, first: bool, end: nat, closes: bool, next: nat, size: nat)
    requires RunAhead(p, n) && n <= i < |p| && q == p[i..] && (first <==> p[i-1] == '\n') && end == LineEnd(q)
    requires (closes <==> first && ClosingLine(env, q[..end], p[..n])) && next == i + end
    ensures closes ==> FenceStops(env, p, n, i, next)
    ensures !closes && FenceStops(env, p, n, next, size) ==> FenceStops(env, p, n, i, size)
  {
    LineStops(env, p, n, i, q, first, end, closes);
    if !closes && FenceStops(env, p, n, next, size) { LineGoesOn(env, p, n, i, q, first, end, size); }
  }

  lemma LineStops(env: Env, p: string, n: nat, i: nat, q: string, first: bool, end: nat, closes: bool)
    requires RunAhead(p, n) && n <= i < |p| && q == p[i..] && (first <==> p[i-1] == '\n') && end == LineEnd(q)
    requires closes <==> first && ClosingLine(env, q[..end], p[..n])
    ensures closes ==> FenceStops(env, p, n, i, i + end)
  {
    LineFrom(p, i);
    OneLine(env, p, n, i, i + end);
    LineMeans(env, p, n, i, q, first, end);
    if closes { StopsHere(env, p, n, i, i + end); }
  }

  lemma LineGoesOn(env: Env, p: string, n: nat, i: nat, q: string, first: bool, end: nat, size: nat)
    requires RunAhead(p, n) && n <= i < |p| && q == p[i..] && (first <==> p[i-1] == '\n') && end == LineEnd(q)
    requires !(first && ClosingLine(env, q[..end], p[..n])) && FenceStops(env, p, n, i + end, size)
    ensures FenceStops(env, p, n, i, size)
  {
    LineFrom(p, i);
    OneLine(env, p, n, i, i + end);
    LineMeans(env, p, n, i, q, first, end);
    StopsFurther(env, p, n, i, i + end, size);
  }

  lemma DropTwice(p: string, i: nat, k: nat)
    requires i + k <= |p|
    ensures p[i..][k..] == p[i+k..]
  {}

  lemma StopsHere(env: Env, p: string, n: nat, i: nat, end: nat)
    requires p != "" && i < end <= |p| && FenceLine(env, p, p[0], n, i, end)
    requires forall j: nat, e: nat :: i <= j < end && FenceLine(env, p, p[0], n, j, e) ==> j == i && e == end
    ensures FenceStops(env, p, n, i, end)
  {}

  lemma LineMeans(env: Env, p: string, n: nat, i: nat, q: string, first: bool, end: nat)
    requires RunAhead(p, n) && n <= i < |p| && q == p[i..] && (first <==> p[i-1] == '\n') && end == LineEnd(q)
    ensures first && ClosingLine(env, q[..end], p[..n]) <==> FenceLine(env, p, p[0], n, i, i + end)
  {
    LineFrom(p, i);
    assert q[..end] == p[i..i+end];
    if first { ClosingMeans(env, p, n, i, i + end); }
  }

  lemma StopsFurther(env: Env, p: string, n: nat, i: nat, end: nat, size: nat)
    requires p != "" && i < end && FenceStops(env, p, n, end, size)
    requires forall j: nat, e: nat :: i <= j < end ==> !FenceLine(env, p, p[0], n, j, e)
    ensures FenceStops(env, p, n, i, size)
  {}

  lemma StopsOnce(env: Env, p: string, n: nat, from: nat, a: nat, b: nat)
    requires p != "" && FenceStops(env, p, n, from, a) && FenceStops(env, p, n, from, b)
    ensures a == b
  {
    if a < |p| { var i: nat :| from <= i && FenceLine(env, p, p[0], n, i, a); }
    if b < |p| { var i: nat :| from <= i && FenceLine(env, p, p[0], n, i, b); }
  }

  // ----- what the rewriter answers -----

  /** A text that begins with a complete tag: the tag is resolved, in the rewriter's answer too. */
  lemma TagResolved(env: Env, text: string, kind: Kind, name: string, k: nat)
    requires IsName(kind, name) && Names(text, name) && TagStopsAt(text, k) && !EndsInTicks(env, Some(0), text)
    ensures var shown := env.tag(kind, text[..k+1]);
            Normalize(env, text) == shown + Render(env, IndentAfter(Some(0), shown), text[k+1..])
  {
    RightUnlessEndsInTicks(env, text);
    TagRenders(env, Some(0), text, kind, name, k);
  }

  // ----- when the rewriter waits -----

  /** Between two pieces: a beginning that more text may still change. */
  predicate MayChange(bound: nat, indent: Option<nat>, p: string)
    requires p != ""
  {
    if p[0] == '\\' then |p| == 1
    else if p[0] == '`' || p[0] == '~' then RunMayChange(indent, p)
    else if p[0] == '<' then TagMayChange(bound, p)
    else if p[0] == '[' then LinkMayChange(bound, p)
    else false
  }

  /** The run may grow, or it may open a fence and its line is not complete. */
  predicate RunMayChange(indent: Option<nat>, p: string)
    requires p != ""
  {
    (forall k :: 0 <= k < |p| ==> p[k] == p[0])
    || (|p| > 3 && p[0] == p[1] == p[2] && indent in {Some(0), Some(1), Some(2), Some(3)}
        && forall k :: 0 <= k < |p| ==> p[k] != '\n')
  }

  /** The name may still become a tag, or the tag is not complete and below the bound. */
  predicate TagMayChange(bound: nat, p: string) {
    || MayName(p, "<cite") || MayName(p, "<kb") || MayName(p, "<web")
    || ((Names(p, "<cite") || Names(p, "<kb") || Names(p, "<web")) && TagNeverStops(p) && |p| < bound)
  }

  /** The label or the target is not complete and below the bound, or nothing follows the label. */
  predicate LinkMayChange(bound: nat, p: string) {
    || (NeverClosed(p, '[', ']') && |p| < bound)
    || (p != "" && ClosedAt(p, '[', ']', |p| - 1))
    || exists mid :: 0 <= mid < |p| - 1 && ClosedAt(p, '[', ']', mid) && p[mid+1] == '('
         && NeverClosed(p[mid+1..], '(', ')') && |p| < bound
  }

  lemma TagWaits(env: Env, s: Scan)
    requires s.pending != "" && s.pending[0] == '<' && s.code == ""
    ensures NextMove(env, s, false).None? <==> TagMayChange(env.bound, s.pending)
  {
    TagNames(s.pending);
    TagEndsFirst(s.pending, 0);
    if !TagMayChange(env.bound, s.pending) && PrefixOf(s.pending).Full? { SomeKind(s.pending); }
  }

  lemma SomeKind(p: string)
    requires PrefixOf(p).Full?
    ensures Names(p, "<cite") || Names(p, "<kb") || Names(p, "<web")
  {
    TagNames(p);
    if !Names(p, "<cite") && !Names(p, "<kb") && !Names(p, "<web") && !PrefixOf(p).Partial? { NoKind(p); }
  }

  lemma LinkWaits(env: Env, s: Scan)
    requires s.pending != "" && s.pending[0] == '[' && s.code == ""
    ensures NextMove(env, s, false).None? <==> LinkMayChange(env.bound, s.pending)
  {
    var p := s.pending;
    var found := Closing(p, '[', ']', 0, 0);
    ClosesFirst(p, '[', ']', |p| - 1);
    if found.Some? {
      ClosesFirst(p, '[', ']', found.value);
      OneClosing(p, found.value);
      if found.value + 1 < |p| { ClosesFirst(p[found.value+1..], '(', ')', 0); }
    }
  }

  lemma OneClosing(p: string, mid: nat)
    requires ClosedAt(p, '[', ']', mid)
    ensures forall k: nat :: ClosedAt(p, '[', ']', k) ==> k == mid
  {}

  lemma RunWaits(env: Env, s: Scan, indent: Option<nat>)
    requires s.pending != "" && (s.pending[0] == '`' || s.pending[0] == '~') && Between(s, indent)
    ensures NextMove(env, s, false).None? <==> RunMayChange(indent, s.pending)
  {
    var p := s.pending;
    var n := RunEnd(p, p[0], 0);
    RunIsUniform(p, p[0], 0);
    FenceShown(s.out);
    IndexSkips(p, '\n', n);
  }

  /** Between two pieces the rewriter waits exactly as long as more text may change what
      comes next; it never holds back anything else. */
  lemma WaitsExactly(env: Env, s: Scan, indent: Option<nat>)
    requires s.pending != "" && Between(s, indent)
    ensures NextMove(env, s, false).None? <==> MayChange(env.bound, indent, s.pending)
  {
    var c := s.pending[0];
    if c == '<' { TagWaits(env, s); }
    if c == '[' { LinkWaits(env, s); }
    if c == '`' || c == '~' { RunWaits(env, s, indent); }
  }

  /** In a code span it waits for a run of the opening width that the text does not end in. */
  lemma SpanWaits(env: Env, s: Scan)
    requires s.pending != "" && s.code != "" && !s.fenced
    ensures NextMove(env, s, false).None?
            <==> forall e :: 0 <= e < |s.pending| ==> !SpanStopsAt(s.pending, |s.code|, e)
  {
    var end := SpanEnd(s.pending, |s.code|, 0, false);
    if end.Some? { SpanEndsFirst(s.pending, |s.code|, end.value, false); }
    forall e | 0 <= e < |s.pending| && SpanStopsAt(s.pending, |s.code|, e) ensures end.Some? {
      SpanEndsFirst(s.pending, |s.code|, e, false);
    }
  }

  /** In a fence it waits for the end of the line. */
  lemma FenceWaits(env: Env, s: Scan)
    requires s.pending != "" && s.code != "" && s.fenced
    ensures NextMove(env, s, false).None? <==> forall k :: 0 <= k < |s.pending| ==> s.pending[k] != '\n'
  {
    IndexSkips(s.pending, '\n', 0);
  }
}
