/** When a text comes out the same however it is cut: an exact condition on the text. */
module CitationCuts {
  import opened CitationBound
  import opened CitationRender
  import opened CitationScan
  import opened CitationStable
  import opened CitationStream
  import opened Options

  // ----- scanners on a part of the text -----

  lemma {:induction false} TagEndBefore(p: string, q: string, i: nat, quote: Option<char>)
    requires i <= |p| && TagEnd(p + q, i, quote).Some? && TagEnd(p + q, i, quote).value < |p|
    ensures TagEnd(p, i, quote) == TagEnd(p + q, i, quote)
    decreases |p| - i
  {
    var next :=
      if quote.Some? then (if p[i] == quote.value then None else quote)
      else if p[i] == '\'' || p[i] == '"' then Some(p[i]) else None;
    if quote.Some? || p[i] != '>' { TagEndBefore(p, q, i + 1, next); }
  }

  lemma {:induction false} ClosingBefore(p: string, q: string, open: char, close: char, i: nat, level: int)
    requires Closing(p + q, open, close, i, level).Some? && Closing(p + q, open, close, i, level).value < |p|
    ensures Closing(p, open, close, i, level) == Closing(p + q, open, close, i, level)
    decreases |p| - i
  {
    if p[i] == '\\' {
      ClosingBefore(p, q, open, close, i + 2, level);
    } else {
      var up := if p[i] == open then level + 1 else level;
      if p[i] != close { ClosingBefore(p, q, open, close, i + 1, up); }
      else if up - 1 != 0 { ClosingBefore(p, q, open, close, i + 1, up - 1); }
    }
  }

  /** Where the target of a link starts, the character before its `(`; none if the text does
      not begin with a label and a `(`. */
  function LabelEnd(p: string): (mid: Option<nat>)
    requires p != "" && p[0] == '['
    ensures mid.Some? ==> 0 < mid.value && mid.value + 1 < |p| && p[mid.value+1] == '('
  {
    match Closing(p, '[', ']', 0, 0)
    case None => None
    case Some(mid) => if mid + 1 < |p| && p[mid+1] == '(' then Some(mid) else None
  }

  /** The `)` of the target. */
  function TargetEnd(p: string, mid: nat): (end: Option<nat>)
    requires mid + 1 < |p| && p[mid+1] == '('
    ensures end.Some? ==> mid + 1 < end.value < |p| && p[end.value] == ')'
  {
    match Closing(p[mid+1..], '(', ')', 0, 0)
    case None => None
    case Some(close) => Some(mid + 1 + close)
  }

  lemma LabelStable(p: string, q: string)
    requires p != "" && p[0] == '[' && LabelEnd(p).Some?
    ensures LabelEnd(p + q) == LabelEnd(p)
  {
    ClosingStable(p, q, '[', ']', 0, 0);
  }

  lemma LabelBefore(p: string, q: string)
    requires p != "" && p[0] == '[' && LabelEnd(p + q).Some? && LabelEnd(p + q).value + 1 < |p|
    ensures LabelEnd(p) == LabelEnd(p + q)
  {
    ClosingBefore(p, q, '[', ']', 0, 0);
  }

  lemma TargetStays(p: string, q: string, mid: nat)
    requires mid + 1 < |p| && p[mid+1] == '(' && TargetEnd(p, mid).Some?
    ensures TargetEnd(p + q, mid) == TargetEnd(p, mid)
  {
    assert (p + q)[mid+1..] == p[mid+1..] + q;
    ClosingStable(p[mid+1..], q, '(', ')', 0, 0);
  }

  lemma TargetBefore(p: string, q: string, mid: nat)
    requires mid + 1 < |p| && p[mid+1] == '(' && TargetEnd(p + q, mid).Some? && TargetEnd(p + q, mid).value < |p|
    ensures TargetEnd(p, mid) == TargetEnd(p + q, mid)
  {
    assert (p + q)[mid+1..] == p[mid+1..] + q;
    ClosingBefore(p[mid+1..], q, '(', ')', 0, 0);
  }

  // ----- moves at a bracket and at a tag -----

  /** What the scanner does at a bracket that begins no link. */
  lemma BracketMove(env: Env, s: Scan, final: bool)
    requires s.pending != "" && s.pending[0] == '[' && s.code == "" && !s.fenced && LabelEnd(s.pending).None?
    ensures var (p, closed) := (s.pending, Closing(s.pending, '[', ']', 0, 0));
            NextMove(env, s, final)
            == if !final && (if closed.None? then |p| < env.bound else closed.value + 1 == |p|) then None
               else Some(Move("[", p[1..], "", false))
  {
    assert NextMove(env, s, final) == MoveLink(env, s, final);
  }

  /** And at one whose target is not closed. */
  lemma OpenTargetMove(env: Env, s: Scan, mid: nat, final: bool)
    requires s.pending != "" && s.pending[0] == '[' && s.code == "" && !s.fenced
    requires LabelEnd(s.pending) == Some(mid) && TargetEnd(s.pending, mid).None?
    ensures NextMove(env, s, final)
            == if !final && |s.pending| < env.bound then None else Some(Move(UNVERIFIED_LINK, "", "", false))
  {
    assert NextMove(env, s, final) == MoveLink(env, s, final);
  }

  /** And at a whole link. */
  lemma WholeLinkMove(env: Env, s: Scan, mid: nat, end: nat, final: bool)
    requires s.pending != "" && s.pending[0] == '[' && s.code == "" && !s.fenced
    requires LabelEnd(s.pending) == Some(mid) && TargetEnd(s.pending, mid) == Some(end)
    ensures NextMove(env, s, final) == Some(LinkMove(env, s.pending, mid, end, false))
    ensures LinkMove(env, s.pending, mid, end, false).rest == s.pending[end+1..]
  {
    LinkFound(env, s, mid, end - mid - 1, final);
    LinkMoveRest(env, s.pending, mid, end);
    assert NextMove(env, s, final) == MoveLink(env, s, final);
  }

  lemma LinkMoveRest(env: Env, p: string, mid: nat, end: nat)
    requires 0 < mid < mid + 1 < end < |p|
    ensures LinkMove(env, p, mid, end, false).rest == p[end+1..]
  {}

  lemma LinkMoveTidy(env: Env, s: Scan, final: bool)
    requires s.pending != "" && s.pending[0] == '[' && s.code == "" && !s.fenced && NextMove(env, s, final).Some?
    ensures !NextMove(env, s, final).value.fenced
  {
    var p := s.pending;
    if LabelEnd(p).None? {
      BracketMove(env, s, final);
    } else {
      var mid := LabelEnd(p).value;
      var end := TargetEnd(p, mid);
      if end.None? { OpenTargetMove(env, s, mid, final); } else { WholeLinkMove(env, s, mid, end.value, final); }
    }
  }

  lemma TagMove(env: Env, s: Scan, final: bool)
    requires s.pending != "" && s.pending[0] == '<' && s.code == "" && !s.fenced && PrefixOf(s.pending).Full?
    ensures var (p, m) := (s.pending, NextMove(env, s, final));
            match TagEnd(p, 1, None)
            case None => m == if !final && |p| < env.bound then None else Some(Move(UNVERIFIED_SOURCE, "", "", false))
            case Some(end) => m == Some(Move(env.tag(PrefixOf(p).kind, p[..end+1]), p[end+1..], "", false))
  {}

  // ----- where a push that is not sound goes wrong -----

  /** Nothing is unsound but a decision at the bound, and that only when more is to come. */
  lemma UnsoundIsForced(env: Env, t: Scan, q: string)
    requires t.pending != "" && NextMove(env, t, false).Some? && !Decides(env, t, q)
    ensures Forced(env, t) && q != ""
  {
    if !Forced(env, t) { MoveStable(env, t, q, true); }
    if q == "" {
      assert Append(t, q) == t;
      var m := NextMove(env, t, false).value;
      assert AppendMove(m, q) == m;
      ForcedFinal(env, t);
    }
  }

  lemma ForcedFinal(env: Env, t: Scan)
    requires Forced(env, t)
    ensures NextMove(env, t, true) == NextMove(env, t, false)
  {}

  /** Outside code nothing is fenced. */
  predicate Tidy(s: Scan) { s.code == "" ==> !s.fenced }

  lemma TidyTicks(s: Scan, final: bool)
    requires s.pending != "" && (s.pending[0] == '`' || s.pending[0] == '~') && !s.fenced
    requires MoveTicks(s, final).Some?
    ensures Tidy(Take(s, MoveTicks(s, final).value))
  {
    var p, n := s.pending, RunEnd(s.pending, s.pending[0], 0);
    assert n > 0 && |p[..n]| == n;
  }

  lemma TidyMove(env: Env, s: Scan, final: bool)
    requires s.pending != "" && Tidy(s) && NextMove(env, s, final).Some?
    ensures Tidy(Take(s, NextMove(env, s, final).value))
  {
    if s.code == "" && (s.pending[0] == '`' || s.pending[0] == '~') {
      TidyTicks(s, final);
    } else if s.code == "" && s.pending[0] == '[' {
      LinkMoveTidy(env, s, final);
    }
  }

  lemma {:induction false} TidyArrival(env: Env, s: Scan, q: string, t: Scan)
    requires Tidy(s) && Arrives(env, s, q, t)
    ensures Tidy(t)
    decreases |s.pending|, if s.code == "" then 0 else 1
  {
    if s != t {
      TidyMove(env, s, false);
      TidyArrival(env, Take(s, NextMove(env, s, false).value), q, t);
    }
  }

  lemma ForcedTagUndecided(env: Env, s: Scan, q: string)
    requires Forced(env, s) && Tidy(s) && s.pending[0] == '<' && q != ""
    ensures !Decides(env, s, q)
  {
    var p := s.pending;
    PrefixStable(p, q, KINDS);
    TagMove(env, s, false);
    TagMove(env, Append(s, q), true);
    var end := TagEnd(p + q, 1, None);
    if end.Some? && end.value < |p| { TagEndBefore(p, q, 1, None); }
  }

  lemma ForcedTargetUndecided(env: Env, s: Scan, q: string)
    requires Forced(env, s) && Tidy(s) && s.pending[0] == '[' && LabelEnd(s.pending).Some? && q != ""
    ensures !Decides(env, s, q)
  {
    var p := s.pending;
    var mid := LabelEnd(p).value;
    LabelStable(p, q);
    OpenTargetMove(env, s, mid, false);
    var end := TargetEnd(p + q, mid);
    if end.None? {
      OpenTargetMove(env, Append(s, q), mid, true);
    } else {
      if end.value < |p| { TargetBefore(p, q, mid); }
      WholeLinkMove(env, Append(s, q), mid, end.value, true);
    }
  }

  /** A link and what it swallows is longer than its bracket. */
  lemma LinkIsShorter(env: Env, s: Scan, mid: nat)
    requires s.pending != "" && s.pending[0] == '[' && s.code == "" && !s.fenced && LabelEnd(s.pending) == Some(mid)
    ensures NextMove(env, s, true).Some? && |NextMove(env, s, true).value.rest| < |s.pending| - 1
  {
    var end := TargetEnd(s.pending, mid);
    if end.None? { OpenTargetMove(env, s, mid, true); } else { WholeLinkMove(env, s, mid, end.value, true); }
  }

  /** The only decision at the bound that the whole text makes too: a bracket that begins no
      link comes out as it is. */
  lemma ForcedDecided(env: Env, s: Scan, q: string)
    requires Forced(env, s) && Tidy(s) && Decides(env, s, q) && q != ""
    ensures s.pending[0] == '[' && Closing(s.pending, '[', ']', 0, 0).None? && LabelEnd(s.pending + q).None?
  {
    if s.pending[0] == '<' {
      ForcedTagUndecided(env, s, q);
    } else if LabelEnd(s.pending).Some? {
      ForcedTargetUndecided(env, s, q);
    } else {
      BracketMove(env, s, false);
      var mid := LabelEnd(s.pending + q);
      if mid.Some? { LinkIsShorter(env, Append(s, q), mid.value); }
    }
  }

  // ----- arriving with more of the text -----

  /** What may be pushed further without making a bracket wait for what follows its `]`. */
  predicate NoBracketLast(y: string) { y == "" || y[|y|-1] != ']' }

  lemma BracketFurther(env: Env, s: Scan, y: string, q: string)
    requires Forced(env, s) && Tidy(s) && s.pending[0] == '[' && Closing(s.pending, '[', ']', 0, 0).None?
    requires LabelEnd(s.pending + (y + q)).None? && y != "" && NoBracketLast(y)
    ensures NextMove(env, Append(s, y), false) == Some(Move("[", s.pending[1..] + y, "", false))
  {
    var p := s.pending;
    assert p + (y + q) == p + y + q && (p + y)[1..] == p[1..] + y;
    if LabelEnd(p + y).Some? { LabelStable(p + y, q); }
    BracketMove(env, Append(s, y), false);
    assert (p + y)[|p + y|-1] == y[|y|-1];
  }

  lemma DecidesFurther(env: Env, s: Scan, y: string, q: string)
    requires s.pending != "" && Tidy(s) && Decides(env, s, y + q) && NoBracketLast(y)
    ensures NextMove(env, Append(s, y), false) == Some(AppendMove(NextMove(env, s, false).value, y))
    ensures Decides(env, Append(s, y), q)
  {
    var m := NextMove(env, s, false).value;
    assert Append(Append(s, y), q) == Append(s, y + q) by { assert s.pending + y + q == s.pending + (y + q); }
    assert AppendMove(AppendMove(m, y), q) == AppendMove(m, y + q) by { assert m.rest + y + q == m.rest + (y + q); }
    if y == "" {
      assert Append(s, y) == s && AppendMove(m, y) == m;
    } else if Forced(env, s) {
      ForcedDecided(env, s, y + q);
      BracketMove(env, s, false);
      BracketFurther(env, s, y, q);
    } else {
      MoveStable(env, s, y, false);
    }
  }

  lemma {:induction false} ArrivesFurther(env: Env, s: Scan, y: string, q: string, t: Scan)
    requires Arrives(env, s, y + q, t) && Tidy(s) && NoBracketLast(y)
    ensures Arrives(env, Append(s, y), q, Append(t, y))
    decreases |s.pending|, if s.code == "" then 0 else 1
  {
    if s != t {
      var m := NextMove(env, s, false).value;
      DecidesFurther(env, s, y, q);
      TidyMove(env, s, false);
      ArrivesFurther(env, Take(s, m), y, q, t);
      assert Take(Append(s, y), AppendMove(m, y)) == Append(Take(s, m), y);
    }
  }

  // ----- an unsound push spoils the text -----

  /** Some cut of what is pushed and what follows comes out differently from the whole. */
  ghost predicate Spoils(env: Env, s: Scan, q: string, y: string, rest: string) {
    q == y + rest && Run(env, Append(Run(env, Append(s, y), false), rest), true).out != Run(env, Append(s, q), true).out
  }

  lemma SpoiledFurther(env: Env, s: Scan, q: string, y: string, rest: string)
    requires q == y + rest
    requires Run(env, Append(Run(env, Append(s, y), false), rest), true).out
             != Run(env, Append(Append(s, y), rest), true).out
    ensures Spoils(env, s, q, y, rest)
  {
    assert s.pending + y + rest == s.pending + q;
    assert Append(Append(s, y), rest) == Append(s, q);
  }

  /** What is to come, cut where a tag or link lacks only its tail: `e` more characters and
      its last one. */
  lemma TailOf(q: string, e: nat) returns (y: string, x: string, rest: string)
    requires e < |q| && (q[e] == '>' || q[e] == ')')
    ensures q == y + (x + rest) && |y + x| == e + 1 && NoBracketLast(y) && IsTail(x)
    ensures y + x == q[..e+1] && forall k :: |y| <= k < e ==> q[k] == ']'
  {
    var brackets;
    y, brackets := Stripped(q[..e]);
    x, rest := brackets + [q[e]], q[e+1..];
    TailPut(q, e, y, brackets);
    BehindIs(q[..e], y, brackets);
  }

  lemma BehindIs(z: string, y: string, brackets: string)
    requires z == y + brackets && forall c :: c in brackets ==> c == ']'
    ensures forall k :: |y| <= k < |z| ==> z[k] == ']'
  {
    forall k | |y| <= k < |z| ensures z[k] == ']' { assert z[k] == brackets[k-|y|] && brackets[k-|y|] in brackets; }
  }

  lemma TailPut(q: string, e: nat, y: string, brackets: string)
    requires e < |q| && q[..e] == y + brackets
    ensures q == y + ((brackets + [q[e]]) + q[e+1..]) && q[..e+1] == y + (brackets + [q[e]])
  {
    assert q == q[..e] + [q[e]] + q[e+1..] && q[..e+1] == q[..e] + [q[e]];
  }

  /** The closing brackets at the end of a text. */
  lemma {:induction false} Stripped(z: string) returns (y: string, brackets: string)
    ensures z == y + brackets && NoBracketLast(y) && forall c :: c in brackets ==> c == ']'
    decreases |z|
  {
    y, brackets := z, "";
    if !NoBracketLast(z) {
      y, brackets := Stripped(z[..|z|-1]);
      brackets := brackets + "]";
    }
  }

  lemma TagTail(p: string, q: string, kind: Kind, bound: nat) returns (y: string, x: string, rest: string)
    requires p != "" && p[0] == '<' && |p| >= bound && PrefixOf(p) == Full(kind) && TagEnd(p, 1, None).None?
    requires TagEnd(p + q, 1, None).Some?
    ensures q == y + (x + rest) && NoBracketLast(y) && LongTag(bound, p + y, x, kind)
  {
    var e := TagEndAhead(p, q);
    y, x, rest := TailOf(q, e);
    PrefixStable(p, y, KINDS);
    assert p + q == (p + y + x) + rest;
    TagUpTo(p + y + x, rest, |p| + e);
  }

  /** How far behind an unfinished tag its end is. */
  lemma TagEndAhead(p: string, q: string) returns (e: nat)
    requires p != "" && TagEnd(p, 1, None).None? && TagEnd(p + q, 1, None).Some?
    ensures TagEnd(p + q, 1, None) == Some(|p| + e) && e < |q| && q[e] == '>'
  {
    var end := TagEnd(p + q, 1, None).value;
    if end < |p| { TagEndBefore(p, q, 1, None); }
    assert q[end-|p|] == (p + q)[end] == '>';
    e := end - |p|;
  }

  lemma TagUpTo(tag: string, rest: string, end: nat)
    requires |tag| == end + 1 && end > 0 && TagEnd(tag + rest, 1, None) == Some(end)
    ensures TagEnd(tag, 1, None) == Some(end)
  {
    TagEndBefore(tag, rest, 1, None);
  }

  lemma TagSpoils(env: Env, s: Scan, q: string, t: Scan) returns (y: string, rest: string)
    requires ShowsTags(env) && Arrives(env, s, q, t) && Tidy(s) && Forced(env, t)
    requires t.pending[0] == '<' && TagEnd(t.pending + q, 1, None).Some?
    ensures Spoils(env, s, q, y, rest)
  {
    var kind := PrefixOf(t.pending).kind;
    var x, after;
    TidyArrival(env, s, q, t);
    y, x, after := TagTail(t.pending, q, kind, env.bound);
    rest := x + after;
    ArrivesFurther(env, s, y, rest, t);
    LongTagSpoils(env, Append(s, y), Append(t, y), x, kind, after);
    SpoiledFurther(env, s, q, y, rest);
  }

  /** Not everything of an unfinished link has arrived. */
  lemma UnfinishedIsShort(p: string, q: string, mid: nat)
    requires p != "" && p[0] == '[' && UnfinishedLink(p)
    requires LabelEnd(p + q) == Some(mid) && TargetEnd(p + q, mid).Some?
    ensures |p| <= TargetEnd(p + q, mid).value
  {
    if TargetEnd(p + q, mid).value < |p| {
      LabelBefore(p, q);
      TargetBefore(p, q, mid);
    }
  }

  lemma LinkTail(p: string, q: string, mid: nat, bound: nat) returns (y: string, x: string, rest: string)
    requires p != "" && p[0] == '[' && |p| >= bound && UnfinishedLink(p)
    requires LabelEnd(p + q) == Some(mid) && TargetEnd(p + q, mid).Some?
    ensures q == y + (x + rest) && NoBracketLast(y) && LongLink(bound, p + y, x, mid)
  {
    var end := TargetEnd(p + q, mid).value;
    UnfinishedIsShort(p, q, mid);
    assert q[end-|p|] == (p + q)[end] == ')';
    y, x, rest := TailOf(q, end - |p|);
    if mid + 1 >= |p| { assert q[mid+1-|p|] == (p + q)[mid+1] == '('; }
    LinkUpTo(p + y, x, rest, mid, end, p + q);
  }

  lemma LinkUpTo(open: string, x: string, rest: string, mid: nat, end: nat, whole: string)
    requires whole == open + x + rest && open != "" && open[0] == '[' && mid + 1 < |open| && |open + x| == end + 1
    requires LabelEnd(whole) == Some(mid) && TargetEnd(whole, mid) == Some(end) && IsTail(x)
    ensures LongLink(0, open, x, mid)
  {
    assert whole == open + (x + rest);
    LabelBefore(open, x + rest);
    assert (open + x)[mid+1] == open[mid+1];
    TargetBefore(open + x, rest, mid);
    assert (open + x)[mid+1..] == open[mid+1..] + x;
  }

  lemma LinkSpoils(env: Env, s: Scan, q: string, t: Scan, mid: nat) returns (y: string, rest: string)
    requires ShowsTags(env) && Arrives(env, s, q, t) && Tidy(s) && Forced(env, t)
    requires t.pending[0] == '[' && LabelEnd(t.pending + q) == Some(mid) && TargetEnd(t.pending + q, mid).Some?
    ensures Spoils(env, s, q, y, rest)
  {
    var x, after;
    TidyArrival(env, s, q, t);
    y, x, after := LinkTail(t.pending, q, mid, env.bound);
    rest := x + after;
    ArrivesFurther(env, s, y, rest, t);
    LongLinkSpoils(env, Append(s, y), Append(t, y), x, mid, after);
    SpoiledFurther(env, s, q, y, rest);
  }

  // ----- tags and links that never end -----

  lemma FirstEmits(env: Env, s: Scan)
    requires ShowsTags(env) && s.code == "" && !s.fenced && s.pending != "" && s.pending[0] != '`'
    ensures NextMove(env, s, true).Some? && NextMove(env, s, true).value.emit != ""
  {
    var p := s.pending;
    if p[0] == '<' && PrefixOf(p).Full? {
      TagMove(env, s, true);
    } else if p[0] == '[' {
      BracketEmits(env, s);
    } else if p[0] == '~' {
      assert RunEnd(p, p[0], 0) > 0;
    }
  }

  lemma BracketEmits(env: Env, s: Scan)
    requires ShowsTags(env) && s.code == "" && !s.fenced && s.pending != "" && s.pending[0] == '['
    ensures NextMove(env, s, true).Some? && NextMove(env, s, true).value.emit != ""
  {
    var p := s.pending;
    if LabelEnd(p).None? {
      BracketMove(env, s, true);
    } else {
      var mid := LabelEnd(p).value;
      var end := TargetEnd(p, mid);
      if end.None? {
        OpenTargetMove(env, s, mid, true);
      } else {
        WholeLinkMove(env, s, mid, end.value, true);
        LinkEmits(env, p, mid, end.value);
      }
    }
  }

  lemma LinkEmits(env: Env, p: string, mid: nat, end: nat)
    requires ShowsTags(env) && 0 < mid < mid + 1 < end < |p|
    ensures LinkMove(env, p, mid, end, false).emit != ""
  {}

  /** A text that is not all backticks does not come to nothing. */
  lemma EmitsSomething(env: Env, s: Scan)
    requires ShowsTags(env) && s.code == "" && !s.fenced && !AllBackticks(s.pending)
    ensures |Run(env, s, true).out| > |s.out|
  {
    var p := s.pending;
    if p[0] != '`' {
      FirstEmits(env, s);
      var m := NextMove(env, s, true).value;
      RunStep(env, s, m, true);
      RunGrows(env, Take(s, m), true);
    } else {
      TicksEmit(env, s);
    }
  }

  lemma TicksEmit(env: Env, s: Scan)
    requires s.code == "" && !s.fenced && !AllBackticks(s.pending) && s.pending[0] == '`'
    ensures |Run(env, s, true).out| > |s.out|
  {
    var p, n := s.pending, RunEnd(s.pending, s.pending[0], 0);
    RunIsUniform(p, p[0], 0);
    assert 0 < n < |p| && |p[..n]| == n;
    var m := MoveTicks(s, true).value;
    var t := Take(s, m);
    RunStep(env, s, m, true);
    if m.emit == "" {
      var m2 := MoveSpan(t, true).value;
      RunStep(env, t, m2, true);
      RunGrows(env, Take(t, m2), true);
    } else {
      RunGrows(env, t, true);
    }
  }

  /** A tag or target that never ends swallows the whole rest, but not after a cut. */
  lemma SwallowSpoils(env: Env, s: Scan, q: string, t: Scan, marker: string)
    requires ShowsTags(env) && Arrives(env, s, q, t) && t.pending != "" && t.code == "" && !t.fenced
    requires NextMove(env, t, false) == Some(Move(marker, "", "", false)) == NextMove(env, Append(t, q), true)
    requires EndsInText(marker) && !Swallows(env, t, q)
    ensures Spoils(env, s, q, "", q)
  {
    SwallowOutputs(env, t, q, marker);
    SpoiledAhead(env, s, q, t);
  }

  lemma SpoiledAhead(env: Env, s: Scan, q: string, t: Scan)
    requires Arrives(env, s, q, t)
    requires Run(env, Append(Run(env, t, false), q), true).out != Run(env, Append(t, q), true).out
    ensures Spoils(env, s, q, "", q)
  {
    ArrivesRuns(env, s, q, t);
    assert Append(s, "") == s && "" + q == q;
  }

  lemma SwallowOutputs(env: Env, t: Scan, q: string, marker: string)
    requires ShowsTags(env) && t.pending != "" && t.code == "" && !t.fenced && !AllBackticks(q)
    requires NextMove(env, t, false) == Some(Move(marker, "", "", false)) == NextMove(env, Append(t, q), true)
    ensures |Run(env, Append(Run(env, t, false), q), true).out| > |Run(env, Append(t, q), true).out|
  {
    var m := Move(marker, "", "", false);
    RunStep(env, t, m, false);
    RunStep(env, Append(t, q), m, true);
    assert Append(Emitted(t, marker, ""), q).pending == q;
    EmitsSomething(env, Append(Emitted(t, marker, ""), q));
  }

  /** And a label before such a target comes out in full, but not without a cut. */
  lemma LabelSpoils(env: Env, s: Scan, q: string, t: Scan, mid: nat)
    requires Arrives(env, s, q, t) && Forced(env, t) && !t.fenced && t.pending[0] == '['
    requires Closing(t.pending, '[', ']', 0, 0).None?
    requires LabelEnd(t.pending + q) == Some(mid) && TargetEnd(t.pending + q, mid).None?
    ensures Spoils(env, s, q, "", q)
  {
    var m, whole := Move("[", t.pending[1..], "", false), Move(UNVERIFIED_LINK, "", "", false);
    BracketMove(env, t, false);
    RunStep(env, t, m, false);
    RunGrows(env, Take(t, m), false);
    RunGrows(env, Append(Run(env, t, false), q), true);
    OpenTargetMove(env, Append(t, q), mid, true);
    RunStep(env, Append(t, q), whole, true);
    FirstDiffers(t.out, "[", UNVERIFIED_LINK, Run(env, Append(Run(env, t, false), q), true).out);
    SpoiledAhead(env, s, q, t);
  }

  lemma FirstDiffers(out: string, a: string, b: string, longer: string)
    requires a != "" && b != "" && a[0] != b[0] && out + a <= longer
    ensures longer != out + b
  {
    assert (out + a)[|out|] == a[0] && (out + b)[|out|] == b[0];
  }

  // ----- every unsound push spoils the text -----

  lemma UnsoundTagSpoils(env: Env, s: Scan, q: string, t: Scan) returns (y: string, rest: string)
    requires ShowsTags(env) && Arrives(env, s, q, t) && Tidy(s) && Forced(env, t) && t.pending[0] == '<'
    requires !Swallows(env, t, q)
    ensures Spoils(env, s, q, y, rest)
  {
    if TagEnd(t.pending + q, 1, None).Some? {
      y, rest := TagSpoils(env, s, q, t);
    } else {
      y, rest := "", q;
      TidyArrival(env, s, q, t);
      PrefixStable(t.pending, q, KINDS);
      TagMove(env, t, false);
      TagMove(env, Append(t, q), true);
      assert EndsInText(UNVERIFIED_SOURCE);
      SwallowSpoils(env, s, q, t, UNVERIFIED_SOURCE);
    }
  }

  lemma UnsoundLinkSpoils(env: Env, s: Scan, q: string, t: Scan, mid: nat) returns (y: string, rest: string)
    requires ShowsTags(env) && Arrives(env, s, q, t) && Tidy(s) && Forced(env, t) && t.pending[0] == '['
    requires LabelEnd(t.pending + q) == Some(mid) && !Swallows(env, t, q)
    ensures Spoils(env, s, q, y, rest)
  {
    TidyArrival(env, s, q, t);
    y, rest := "", q;
    if TargetEnd(t.pending + q, mid).Some? {
      y, rest := LinkSpoils(env, s, q, t, mid);
    } else if Closing(t.pending, '[', ']', 0, 0).None? {
      LabelSpoils(env, s, q, t, mid);
    } else {
      LabelStable(t.pending, q);
      OpenTargetMove(env, t, mid, false);
      OpenTargetMove(env, Append(t, q), mid, true);
      assert EndsInText(UNVERIFIED_LINK);
      SwallowSpoils(env, s, q, t, UNVERIFIED_LINK);
    }
  }

  /** A bracket that begins no link is decided at the bound as it is anyway. */
  lemma PlainBracketDecides(env: Env, t: Scan, q: string)
    requires Forced(env, t) && !t.fenced && t.pending[0] == '[' && LabelEnd(t.pending + q).None?
    ensures Decides(env, t, q)
  {
    assert (t.pending + q)[1..] == t.pending[1..] + q;
    if LabelEnd(t.pending).Some? { LabelStable(t.pending, q); }
    BracketMove(env, t, false);
    BracketMove(env, Append(t, q), true);
  }

  lemma UnsoundSpoils(env: Env, s: Scan, q: string) returns (y: string, rest: string)
    requires ShowsTags(env) && Tidy(s) && !Sound(env, s, q)
    ensures Spoils(env, s, q, y, rest)
  {
    var t := WhereUnsound(env, s, q);
    UnsoundIsForced(env, t, q);
    TidyArrival(env, s, q, t);
    if t.pending[0] == '<' {
      y, rest := UnsoundTagSpoils(env, s, q, t);
    } else {
      if LabelEnd(t.pending + q).None? { PlainBracketDecides(env, t, q); }
      y, rest := UnsoundLinkSpoils(env, s, q, t, LabelEnd(t.pending + q).value);
    }
  }

  // ----- cuts of a text -----

  /** However the text is cut, the pushed outputs together are its normalization. */
  ghost predicate SameHoweverCut(env: Env, text: string) {
    forall chunks: seq<string>, last: string :: Concat(chunks) + last == text ==>
      Run(env, Append(Pushed(env, START, chunks), last), true).out == Normalize(env, text)
  }

  lemma {:induction false} TidyRun(env: Env, s: Scan)
    requires Tidy(s)
    ensures Tidy(Run(env, s, false))
    decreases |s.pending|, if s.code == "" then 0 else 1
  {
    if s.pending != "" && NextMove(env, s, false).Some? {
      var m := NextMove(env, s, false).value;
      RunStep(env, s, m, false);
      TidyMove(env, s, false);
      TidyRun(env, Take(s, m));
    }
  }

  lemma SoundFirst(env: Env, s: Scan, first: string, more: seq<string>, last: string)
    requires Sound(env, Append(s, first), Concat(more) + last)
    requires AllSound(env, Run(env, Append(s, first), false), more, last)
    ensures AllSound(env, s, [first] + more, last)
    ensures Pushed(env, s, [first] + more) == Pushed(env, Run(env, Append(s, first), false), more)
    ensures Concat([first] + more) + last == first + (Concat(more) + last)
  {
    assert ([first] + more)[0] == first && ([first] + more)[1..] == more;
    assert first + Concat(more) + last == first + (Concat(more) + last);
  }

  /** The first push that is not sound, the pushes before it, and what is to come then. */
  lemma {:induction false} FirstUnsound(env: Env, s: Scan, chunks: seq<string>, last: string)
    returns (before: seq<string>, c: string, rest: string)
    requires Tidy(s) && !AllSound(env, s, chunks, last)
    ensures AllSound(env, s, before, c + rest) && Concat(before) + (c + rest) == Concat(chunks) + last
    ensures Tidy(Pushed(env, s, before)) && !Sound(env, Append(Pushed(env, s, before), c), rest)
    decreases |chunks|
  {
    var first, more := chunks[0], chunks[1..];
    assert first + (Concat(more) + last) == Concat(chunks) + last;
    if !Sound(env, Append(s, first), Concat(more) + last) {
      before, c, rest := [], first, Concat(more) + last;
      assert "" + (first + rest) == first + rest;
    } else {
      TidyRun(env, Append(s, first));
      var b;
      b, c, rest := FirstUnsound(env, Run(env, Append(s, first), false), more, last);
      SoundFirst(env, s, first, b, c + rest);
      before := [first] + b;
    }
  }

  lemma {:induction false} ConcatMore(chunks: seq<string>, c: string)
    ensures Concat(chunks + [c]) == Concat(chunks) + c
  {
    if chunks == [] {
      assert [] + [c] == [c] && [c][1..] == [] && c + "" == c && "" + c == c;
    } else {
      assert (chunks + [c])[0] == chunks[0] && (chunks + [c])[1..] == chunks[1..] + [c];
      ConcatMore(chunks[1..], c);
      assert chunks[0] + (Concat(chunks[1..]) + c) == chunks[0] + Concat(chunks[1..]) + c;
    }
  }

  lemma CutShows(env: Env, text: string, chunks: seq<string>, last: string)
    requires Concat(chunks) + last == text
    requires Run(env, Append(Pushed(env, START, chunks), last), true).out != Normalize(env, text)
    ensures !SameHoweverCut(env, text)
  {}

  lemma Regrouped(a: string, c: string, y: string, rest: string)
    ensures a + (c + y) + rest == a + (c + (y + rest))
  {}

  lemma PushedLonger(env: Env, before: seq<string>, c: string, y: string)
    ensures Pushed(env, START, before + [c + y]) == Run(env, Append(Append(Pushed(env, START, before), c), y), false)
    ensures Concat(before + [c + y]) == Concat(before) + (c + y)
  {
    var s := Pushed(env, START, before);
    PushedAfter(env, START, before, c + y);
    ConcatMore(before, c + y);
    assert Append(Append(s, c), y) == Append(s, c + y);
  }

  lemma SpoilsText(env: Env, before: seq<string>, c: string, y: string, rest: string)
    requires AllSound(env, START, before, c + (y + rest))
    requires Spoils(env, Append(Pushed(env, START, before), c), y + rest, y, rest)
    ensures !SameHoweverCut(env, Concat(before) + (c + (y + rest)))
  {
    PushedThen(env, before, c, y + rest);
    PushedLonger(env, before, c, y);
    Regrouped(Concat(before), c, y, rest);
    CutShows(env, Concat(before) + (c + (y + rest)), before + [c + y], rest);
  }

  /** A cut with an unsound push leads to one that changes the text. */
  lemma UnsoundCutSpoils(env: Env, text: string, chunks: seq<string>, last: string)
    requires ShowsTags(env) && Concat(chunks) + last == text && !AllSound(env, START, chunks, last)
    ensures !SameHoweverCut(env, text)
  {
    var before, c, q := FirstUnsound(env, START, chunks, last);
    var y, rest := UnsoundSpoils(env, Append(Pushed(env, START, before), c), q);
    assert q == y + rest;
    SpoilsText(env, before, c, y, rest);
  }
}
