/** A text that is not safe has a cut that spoils it: fed one character after the other, the
    scanner comes to the harmful tag or link before all of it has arrived. */
module CitationUnsafe {
  import opened CitationBound
  import opened CitationCuts
  import opened CitationSafe
  import opened CitationScan
  import opened CitationStable
  import opened CitationStream
  import opened Options

  // ----- what has arrived is decided -----

  /** The whole text's next move, and a tag or link behind it that has begun to arrive. */
  predicate Comes(env: Env, s: Scan, q: string, m: Move, g: nat) {
    && s.pending != "" && Tidy(s) && q != "" && !Stuck(Append(s, q)) && NextMove(env, Append(s, q), true) == Some(m)
    && |s.pending + q| - |m.rest| <= g < |s.pending| && 0 < g && (s.pending[g] == '<' || s.pending[g] == '[')
    && Held(Append(s, q)) <= |s.pending|
  }

  lemma {:induction false} SpanEndBefore(p: string, q: string, width: nat, i: nat)
    requires i <= |p| && width > 0 && SpanEnd(p + q, width, i, true).Some?
    requires SpanEnd(p + q, width, i, true).value < |p|
    ensures SpanEnd(p, width, i, false) == SpanEnd(p + q, width, i, true)
    decreases |p| - i
  {
    if i < |p| {
      if p[i] != '`' {
        SpanEndBefore(p, q, width, i + 1);
      } else {
        var e := RunEnd(p + q, '`', i);
        RunEndBefore(p, q, '`', i);
        if e - i != width { SpanEndBefore(p, q, width, e); }
      }
    }
  }

  lemma {:induction false} RunEndBefore(p: string, q: string, c: char, i: nat)
    requires i <= |p|
    ensures RunEnd(p + q, c, i) < |p| ==> RunEnd(p, c, i) == RunEnd(p + q, c, i)
    ensures RunEnd(p + q, c, i) >= |p| ==> RunEnd(p, c, i) == |p|
    decreases |p| - i
  {
    if i < |p| && p[i] == c { RunEndBefore(p, q, c, i + 1); }
  }

  lemma FenceDecided(env: Env, s: Scan, q: string, m: Move, g: nat)
    requires Comes(env, s, q, m, g) && s.code != "" && s.fenced
    ensures NextMove(env, s, false).Some?
  {
    var p := s.pending;
    var end := LineEnd(p + q);
    assert |m.emit| == end && |m.rest| == |p + q| - end;
    assert (p + q)[end-1] == '\n' == p[end-1];
    IndexSkips(p, '\n', 0);
  }

  lemma SpanDecided(env: Env, s: Scan, q: string, m: Move, g: nat)
    requires Comes(env, s, q, m, g) && s.code != "" && !s.fenced
    ensures NextMove(env, s, false).Some?
  {
    var p := s.pending;
    var end := SpanEnd(p + q, |s.code|, 0, true).value;
    assert |m.rest| == |p + q| - end;
    SpanEndBefore(p, q, |s.code|, 0);
  }

  lemma TicksDecided(env: Env, s: Scan, q: string, m: Move, g: nat)
    requires Comes(env, s, q, m, g) && s.code == "" && (s.pending[0] == '`' || s.pending[0] == '~')
    ensures NextMove(env, s, false).Some?
  {
    var p := s.pending;
    var n := RunEnd(p, p[0], 0);
    RunIsUniform(p, p[0], 0);
    assert n < |p|;
    RunEndStable(p, q, p[0], 0);
    if n >= 3 && FenceStart(s.out) {
      var nl := IndexFrom(p + q, '\n', n);
      assert nl < |p|;
      IndexSkips(p, '\n', n);
    }
  }

  lemma NoPartial(p: string, g: nat)
    requires 0 < g < |p| && (p[g] == '<' || p[g] == '[')
    ensures !PrefixOf(p).Partial?
  {
    forall k: Kind ensures !IsPartial(p, k) {
      assert Lower(p)[g] == p[g];
    }
    NeverPartial(p, KINDS);
  }

  lemma {:induction false} NeverPartial(p: string, kinds: seq<Kind>)
    requires forall k: Kind :: !IsPartial(p, k)
    ensures !PrefixAmong(p, kinds).Partial?
  {
    if kinds != [] { NeverPartial(p, kinds[1..]); }
  }

  lemma TagDecided(env: Env, s: Scan, q: string, m: Move, g: nat)
    requires Comes(env, s, q, m, g) && s.code == "" && s.pending[0] == '<'
    ensures NextMove(env, s, false).Some? && !Forced(env, s)
  {
    var p := s.pending;
    NoPartial(p, g);
    PrefixStable(p, q, KINDS);
    if PrefixOf(p).Full? {
      TagMove(env, Append(s, q), true);
      var end := TagEnd(p + q, 1, None);
      assert end.Some? && end.value < |p|;
      TagEndBefore(p, q, 1, None);
    }
  }

  /** A bracket waits while the bound is not reached, or for what follows its `]`. */
  predicate Waits(env: Env, s: Scan) {
    && s.code == "" && s.pending != "" && s.pending[0] == '[' && NextMove(env, s, false).None?
    && (|s.pending| < env.bound || s.pending[|s.pending|-1] == ']')
  }

  lemma BracketDecided(env: Env, s: Scan, q: string, m: Move, g: nat)
    requires Comes(env, s, q, m, g) && s.code == "" && s.pending[0] == '['
    ensures Waits(env, s) || Decides(env, s, q)
  {
    var p := s.pending;
    if LabelEnd(p + q).None? {
      if NextMove(env, s, false).Some? {
        if Forced(env, s) { PlainBracketDecides(env, s, q); } else { MoveStable(env, s, q, true); }
      } else {
        if LabelEnd(p).Some? { LabelStable(p, q); }
        BracketMove(env, s, false);
      }
    } else {
      LinkDecidedWhole(env, s, q, m, g);
    }
  }

  lemma LinkDecidedWhole(env: Env, s: Scan, q: string, m: Move, g: nat)
    requires Comes(env, s, q, m, g) && s.code == "" && s.pending[0] == '[' && LabelEnd(s.pending + q).Some?
    ensures Decides(env, s, q)
  {
    var p := s.pending;
    var mid := LabelEnd(p + q).value;
    var end := TargetEnd(p + q, mid);
    if end.None? {
      OpenTargetMove(env, Append(s, q), mid, true);
    } else {
      WholeLinkMove(env, Append(s, q), mid, end.value, true);
      LabelBefore(p, q);
      TargetBefore(p, q, mid);
      WholeLinkMove(env, s, mid, end.value, false);
      MoveStable(env, s, q, true);
    }
  }

  /** Before the tag or link the scanner decides as the whole text does, or waits at a bracket. */
  lemma StepDecided(env: Env, s: Scan, q: string, m: Move, g: nat)
    requires Comes(env, s, q, m, g)
    ensures Decides(env, s, q) || Waits(env, s)
  {
    var p := s.pending;
    assert (p + q)[0] == p[0];
    if s.code == "" && p[0] == '[' {
      BracketDecided(env, s, q, m, g);
    } else {
      if s.code != "" {
        if s.fenced { FenceDecided(env, s, q, m, g); } else { SpanDecided(env, s, q, m, g); }
      } else if p[0] == '`' || p[0] == '~' {
        TicksDecided(env, s, q, m, g);
      } else if p[0] == '<' {
        TagDecided(env, s, q, m, g);
      }
      MoveStable(env, s, q, true);
    }
  }

  // ----- at the harmful tag or link -----

  /** So much of a harmful tag or link is decided wrongly as soon as it has arrived. */
  function Harm(bound: nat, p: string, from: nat): (n: nat)
    requires p != "" && !Unharmed(bound, p, from)
    ensures 0 < n < |p| && bound <= n && from <= n
  {
    if p[0] == '<' then
      var least := Max(Max(bound, from), |Opening(PrefixOf(p).kind)| + 1);
      assert TagEnd(p, 1, None).None? ==> exists i :: least <= i < |p| && p[i] != '`';
      least
    else
      var mid, least := LabelEnd(p).value, Max(bound, from);
      assert TargetEnd(p, mid).None? && mid < least ==> exists i :: Max(least, mid + 2) <= i < |p| && p[i] != '`';
      if least <= mid then Max(least, 1) else Max(least, mid + 2)
  }

  lemma NotTicks(q: string, i: nat)
    requires i < |q| && q[i] != '`'
    ensures !AllBackticks(q)
  {
    assert q[i] in q;
  }

  lemma ShortTagMove(env: Env, s: Scan, q: string, from: nat)
    requires s.code == "" && !s.fenced && s.pending != "" && s.pending[0] == '<'
    requires !Unharmed(env.bound, s.pending + q, from) && |s.pending| <= Harm(env.bound, s.pending + q, from)
    requires NextMove(env, s, false).Some?
    ensures NextMove(env, s, false) == Some(Move(UNVERIFIED_SOURCE, "", "", false))
  {
    var p := s.pending;
    assert (p + q)[0] == p[0];
    PrefixStable(p, q, KINDS);
    if TagEnd(p, 1, None).Some? { TagEndStable(p, q, 1, None); }
  }

  lemma TagWaste(env: Env, s: Scan, q: string, from: nat) returns (i: nat)
    requires s.pending != "" && s.pending[0] == '<'
    requires !Unharmed(env.bound, s.pending + q, from) && |s.pending| <= Harm(env.bound, s.pending + q, from)
    ensures i < |q| && q[i] != '`'
    ensures var end := TagEnd(s.pending + q, 1, None); end.Some? ==> |s.pending| <= end.value
  {
    var whole := s.pending + q;
    assert whole[0] == s.pending[0];
    var end := TagEnd(whole, 1, None);
    var k: nat := if end.Some? then end.value else WhereNoTick(whole, Harm(env.bound, whole, from));
    i := k - |s.pending|;
    assert q[i] == whole[k];
  }

  lemma HarmfulTag(env: Env, s: Scan, q: string, from: nat)
    requires s.code == "" && !s.fenced && s.pending != "" && s.pending[0] == '<'
    requires !Unharmed(env.bound, s.pending + q, from) && |s.pending| <= Harm(env.bound, s.pending + q, from)
    requires NextMove(env, s, false).Some?
    ensures !Decides(env, s, q) && !Swallows(env, s, q)
  {
    ShortTagMove(env, s, q, from);
    var i := TagWaste(env, s, q, from);
    NotTicks(q, i);
    assert (s.pending + q)[0] == s.pending[0];
    TagMove(env, Append(s, q), true);
  }

  lemma HarmfulLink(env: Env, s: Scan, q: string, from: nat)
    requires s.code == "" && !s.fenced && s.pending != "" && s.pending[0] == '['
    requires !Unharmed(env.bound, s.pending + q, from) && |s.pending| <= Harm(env.bound, s.pending + q, from)
    requires NextMove(env, s, false).Some?
    ensures !Decides(env, s, q) && !Swallows(env, s, q)
  {
    var p, whole := s.pending, s.pending + q;
    assert whole[0] == p[0];
    var mid := LabelEnd(whole).value;
    LinkIsShorter(env, Append(s, q), mid);
    if TargetEnd(whole, mid).Some? {
      HarmfulWhole(env, s, q, mid, TargetEnd(whole, mid).value);
    } else {
      HarmfulOpen(env, s, q, mid, from);
    }
  }

  lemma HarmfulWhole(env: Env, s: Scan, q: string, mid: nat, end: nat)
    requires s.code == "" && !s.fenced && s.pending != "" && s.pending[0] == '[' && NextMove(env, s, false).Some?
    requires LabelEnd(s.pending + q) == Some(mid) && TargetEnd(s.pending + q, mid) == Some(end) && |s.pending| <= end
    ensures !Decides(env, s, q) && !Swallows(env, s, q)
  {
    var p := s.pending;
    WholeLinkMove(env, Append(s, q), mid, end, true);
    if LabelEnd(p).None? {
      BracketMove(env, s, false);
    } else {
      LabelStable(p, q);
      if TargetEnd(p, mid).Some? { TargetStays(p, q, mid); }
      OpenTargetMove(env, s, mid, false);
    }
    assert q[end-|p|] == (p + q)[end] == ')';
    NotTicks(q, end - |p|);
  }

  lemma HarmfulOpen(env: Env, s: Scan, q: string, mid: nat, from: nat)
    requires s.code == "" && !s.fenced && s.pending != "" && s.pending[0] == '[' && NextMove(env, s, false).Some?
    requires LabelEnd(s.pending + q) == Some(mid) && TargetEnd(s.pending + q, mid).None?
    requires !Unharmed(env.bound, s.pending + q, from) && |s.pending| <= Harm(env.bound, s.pending + q, from)
    ensures !Decides(env, s, q) && !Swallows(env, s, q)
  {
    var p, whole := s.pending, s.pending + q;
    OpenTargetMove(env, Append(s, q), mid, true);
    if LabelEnd(p).None? {
      BracketMove(env, s, false);
    } else {
      LabelStable(p, q);
      if TargetEnd(p, mid).Some? { TargetStays(p, q, mid); }
      OpenTargetMove(env, s, mid, false);
    }
    var i: nat := if Max(env.bound, from) <= mid then mid else WhereNoTick(whole, Harm(env.bound, whole, from));
    assert whole[mid] == ']' by { ClosingIs(whole, mid); }
    assert q[i-|p|] == whole[i];
    NotTicks(q, i - |p|);
  }

  lemma ClosingIs(p: string, mid: nat)
    requires p != "" && p[0] == '[' && LabelEnd(p) == Some(mid)
    ensures p[mid] == ']'
  {}

  function WhereNoTick(p: string, k: nat): (i: nat)
    requires !TicksFrom(p, k)
    ensures k <= i < |p| && p[i] != '`'
    decreases |p| - k
  {
    if k < |p| && p[k] == '`' then WhereNoTick(p, k + 1) else k
  }

  /** When so much has arrived, the scanner decides. */
  lemma HarmForces(env: Env, s: Scan, q: string, from: nat)
    requires s.code == "" && !s.fenced && s.pending != ""
    requires !Unharmed(env.bound, s.pending + q, from) && |s.pending| == Harm(env.bound, s.pending + q, from)
    ensures NextMove(env, s, false).Some?
  {
    var p, whole := s.pending, s.pending + q;
    assert whole[0] == p[0];
    if p[0] == '<' {
      var kind := PrefixOf(whole).kind;
      FullAmong(whole, KINDS, kind);
      assert p[|Opening(kind)|] == whole[|Opening(kind)|];
      DelimiterDecides(p, |Opening(kind)|);
      PrefixStable(p, q, KINDS);
      TagMove(env, s, false);
    } else {
      var mid := LabelEnd(whole).value;
      if Max(env.bound, from) <= mid {
        if LabelEnd(p).Some? { LabelStable(p, q); }
        if Closing(p, '[', ']', 0, 0).Some? { ClosingStable(p, q, '[', ']', 0, 0); }
        BracketMove(env, s, false);
      } else {
        LabelBefore(p, q);
        if TargetEnd(p, mid).None? { OpenTargetMove(env, s, mid, false); }
        else { WholeLinkMove(env, s, mid, TargetEnd(p, mid).value, false); }
      }
    }
  }

  lemma DelimiterDecides(p: string, i: nat)
    requires 0 < i < |p| && p[i] in " \t\r\n/>"
    ensures !PrefixOf(p).Partial?
  {
    forall k: Kind ensures !IsPartial(p, k) {
      assert Lower(p)[i] == p[i];
    }
    NeverPartial(p, KINDS);
  }

  // ----- on the way to it -----

  predicate Harmful(env: Env, t: Scan, from: nat) {
    t.code == "" && !t.fenced && t.pending != "" && !Unharmed(env.bound, t.pending, from)
  }

  /** The stream holds `s` with `q` to come, on its way to the harmful place `t`; some of it
      has arrived, all that the scanner waits for, and not too much. */
  predicate OnTheWay(env: Env, s: Scan, q: string, from: nat, t: Scan, fromT: nat) {
    && Tidy(s) && Harmful(env, t, fromT) && Before(env, Append(s, q), from, t, fromT)
    && LineArrives(s.pending + q, from)
    && q != "" && |q| < |t.pending| && fromT + |q| <= |t.pending|
    && |t.pending| - |q| <= Harm(env.bound, t.pending, fromT)
  }

  lemma NotStuckMoves(env: Env, s: Scan, m: Move)
    requires s.pending != "" && !Stuck(s) && NextMove(env, s, true) == Some(m)
    ensures |m.rest| < |s.pending|
  {}

  lemma HeldFirst(s: Scan, m: Move, from: nat)
    requires s.pending != "" && |m.rest| <= |s.pending|
    ensures Held(s) <= FromAfter(s, m, from) + |s.pending| - |m.rest|
  {}

  lemma LineAfter(s: Scan, m: Move, from: nat)
    requires s.pending != "" && LineArrives(s.pending, from) && IsSuffix(m.rest, s.pending)
    ensures LineArrives(m.rest, FromAfter(s, m, from))
  {
    LineStays(s.pending, m.rest, from, Held(s));
  }

  /** The next move of the whole text, seen from the harmful place behind it. */
  lemma Ahead(env: Env, s: Scan, from: nat, t: Scan, fromT: nat) returns (m: Move)
    requires Tidy(s) && Further(env, s, from, t, fromT) && LineArrives(s.pending, from) && t.pending != ""
    ensures NextMove(env, s, true) == Some(m) && |t.pending| <= |m.rest| < |s.pending|
    ensures s.pending[|s.pending|-|t.pending|] == t.pending[0]
    ensures LineArrives(m.rest, FromAfter(s, m, from)) && Held(s) <= fromT + |s.pending| - |t.pending|
  {
    m := NextMove(env, s, true).value;
    NotStuckMoves(env, s, m);
    MoveRestSuffix(env, s);
    LineAfter(s, m, from);
    TidyMove(env, s, true);
    AheadOf(env, Take(s, m), FromAfter(s, m, from), t, fromT);
    PlaceOf(t.pending, m.rest, s.pending);
    HeldFirst(s, m, from);
  }

  lemma AheadOf(env: Env, s: Scan, from: nat, t: Scan, fromT: nat)
    requires Tidy(s) && Before(env, s, from, t, fromT) && LineArrives(s.pending, from)
    ensures IsSuffix(t.pending, s.pending) && from <= fromT + |s.pending| - |t.pending|
  {
    BeforeFacts(env, s, from, t, fromT);
  }

  lemma ItComes(env: Env, s: Scan, q: string, from: nat, t: Scan, fromT: nat) returns (m: Move, g: nat)
    requires OnTheWay(env, s, q, from, t, fromT) && Further(env, Append(s, q), from, t, fromT)
    ensures Comes(env, s, q, m, g) && |t.pending| <= |m.rest|
    ensures LineArrives(m.rest, FromAfter(Append(s, q), m, from))
  {
    m := Ahead(env, Append(s, q), from, t, fromT);
    g := |s.pending + q| - |t.pending|;
    PlaceInFront(s.pending, q, g);
    HarmStarts(env, t, fromT);
  }

  lemma PlaceInFront(p: string, q: string, g: nat)
    requires g < |p|
    ensures (p + q)[g] == p[g]
  {}

  lemma HarmStarts(env: Env, t: Scan, from: nat)
    requires Harmful(env, t, from)
    ensures t.pending[0] == '<' || t.pending[0] == '['
  {}

  lemma PlaceOf(x: string, y: string, p: string)
    requires IsSuffix(x, y) && IsSuffix(y, p) && x != ""
    ensures p[|p|-|x|] == x[0]
  {
    SuffixOfSuffix(x, y, p);
    assert p[|p|-|x|..][0] == x[0];
  }

  lemma WayMove(env: Env, s: Scan, q: string, from: nat, t: Scan, fromT: nat, m: Move) returns (left: nat)
    requires OnTheWay(env, s, q, from, t, fromT) && Further(env, Append(s, q), from, t, fromT)
    requires s.pending != "" && Decides(env, s, q) && NextMove(env, s, false) == Some(m)
    requires LineArrives(m.rest + q, FromAfter(Append(s, q), AppendMove(m, q), from))
    ensures OnTheWay(env, Take(s, m), q, left, t, fromT)
  {
    TidyMove(env, s, false);
    left := FromAfter(Append(s, q), AppendMove(m, q), from);
    assert Take(Append(s, q), AppendMove(m, q)) == Append(Take(s, m), q);
  }

  /** The stream has decided what it can: it stands at the harmful place, or waits at a
      bracket before it. */
  predicate Settled(env: Env, s: Scan, q: string, t: Scan) {
    s.pending != "" && NextMove(env, s, false).None? && (Append(s, q) == t || Waits(env, s))
  }

  lemma AtHarm(env: Env, s: Scan, q: string, from: nat, t: Scan, fromT: nat)
    requires OnTheWay(env, s, q, from, t, fromT) && Append(s, q) == t && Sound(env, s, q)
    ensures Settled(env, s, q, t)
  {
    assert s.pending[0] == t.pending[0];
    if NextMove(env, s, false).Some? {
      if s.pending[0] == '<' { HarmfulTag(env, s, q, fromT); } else { HarmfulLink(env, s, q, fromT); }
    }
  }

  lemma AdvanceMove(env: Env, s: Scan, q: string, from: nat, t: Scan, fromT: nat) returns (m: Move, left: nat)
    requires OnTheWay(env, s, q, from, t, fromT) && Further(env, Append(s, q), from, t, fromT)
    requires Sound(env, s, q) && !Waits(env, s)
    ensures s.pending != "" && NextMove(env, s, false) == Some(m)
    ensures Sound(env, Take(s, m), q) && OnTheWay(env, Take(s, m), q, left, t, fromT)
    ensures |m.rest| < |s.pending| && IsSuffix(m.rest, s.pending)
  {
    var whole, g := ItComes(env, s, q, from, t, fromT);
    StepDecided(env, s, q, whole, g);
    m := NextMove(env, s, false).value;
    assert whole == AppendMove(m, q);
    left := WayMove(env, s, q, from, t, fromT, m);
    MoveRestSuffix(env, Append(s, q));
    NotStuckMoves(env, Append(s, q), whole);
    SuffixArrived(m.rest, s.pending, q);
  }

  lemma {:induction false} Advance(env: Env, s: Scan, q: string, from: nat, t: Scan, fromT: nat)
    returns (u: Scan, left: nat)
    requires OnTheWay(env, s, q, from, t, fromT) && Sound(env, s, q)
    ensures u == Run(env, s, false) && OnTheWay(env, u, q, left, t, fromT) && Settled(env, u, q, t)
    ensures (u == s || |u.pending| < |s.pending|) && IsSuffix(u.pending, s.pending)
    ensures Append(s, q) == t ==> u == s
    decreases |s.pending|
  {
    u, left := s, from;
    if Append(s, q) == t {
      AtHarm(env, s, q, from, t, fromT);
    } else if !Waits(env, s) {
      var m;
      m, left := AdvanceMove(env, s, q, from, t, fromT);
      RunStep(env, s, m, false);
      u, left := Advance(env, Take(s, m), q, left, t, fromT);
      SuffixOfSuffix(u.pending, m.rest, s.pending);
    }
  }

  lemma SuffixArrived(x: string, p: string, q: string)
    requires IsSuffix(x + q, p + q)
    ensures IsSuffix(x, p)
  {
    forall i | 0 <= i < |x| ensures p[|p|-|x|+i] == x[i] {
      assert (x + q)[i] == (p + q)[|p|-|x|..][i] == (p + q)[|p|-|x|+i];
    }
  }

  // ----- one character after the other -----

  /** A bracket that waits for what follows its `]` does not wait for another character. */
  lemma WaitGrows(env: Env, w: Scan, c: string)
    requires Waits(env, w) && !w.fenced && |c| == 1 && Waits(env, Append(w, c)) && |w.pending| <= env.bound
    ensures |w.pending + c| <= env.bound
  {
    var p, s := w.pending, Append(w, c);
    if |p| == env.bound {
      if LabelEnd(p).Some? { LabelWaits(env, w); }
      BracketMove(env, w, false);
      ClosingStable(p, c, '[', ']', 0, 0);
      if LabelEnd(p + c).Some? { LabelWaits(env, s); }
      BracketMove(env, s, false);
    }
  }

  /** At a target the scanner waits only below the bound. */
  lemma LabelWaits(env: Env, s: Scan)
    requires Waits(env, s) && !s.fenced && LabelEnd(s.pending).Some?
    ensures |s.pending| < env.bound
  {
    var mid := LabelEnd(s.pending).value;
    var end := TargetEnd(s.pending, mid);
    if end.None? { OpenTargetMove(env, s, mid, false); } else { WholeLinkMove(env, s, mid, end.value, false); }
  }

  lemma OneMore(env: Env, w: Scan, q: string, from: nat, t: Scan, fromT: nat)
    requires OnTheWay(env, w, q, from, t, fromT) && |t.pending| - |q| < Harm(env.bound, t.pending, fromT)
    ensures OnTheWay(env, Append(w, q[..1]), q[1..], from, t, fromT)
    ensures Append(Append(w, q[..1]), q[1..]) == Append(w, q)
  {
    assert w.pending + q[..1] + q[1..] == w.pending + q;
    assert Append(Append(w, q[..1]), q[1..]) == Append(w, q);
  }

  /** Everything harmful has arrived: the scanner cannot wait any longer. */
  lemma NoMoreWaiting(env: Env, w: Scan, q: string, from: nat, t: Scan, fromT: nat)
    requires OnTheWay(env, w, q, from, t, fromT) && Settled(env, w, q, t)
    requires Append(w, q) == t || |w.pending| <= env.bound
    ensures |t.pending| - |q| < Harm(env.bound, t.pending, fromT)
  {
    if |t.pending| - |q| == Harm(env.bound, t.pending, fromT) {
      if Append(w, q) == t {
        HarmForces(env, w, q, fromT);
      } else {
        var m, g := ItComes(env, w, q, from, t, fromT);
      }
    }
  }

  /** One more character, if its push is sound. */
  lemma CharStep(env: Env, w: Scan, q: string, from: nat, t: Scan, fromT: nat) returns (u: Scan, left: nat)
    requires OnTheWay(env, w, q, from, t, fromT) && Settled(env, w, q, t)
    requires Append(w, q) == t || |w.pending| <= env.bound
    requires Sound(env, Append(w, q[..1]), q[1..])
    ensures u == Run(env, Append(w, q[..1]), false) && OnTheWay(env, u, q[1..], left, t, fromT)
    ensures Settled(env, u, q[1..], t) && (Append(u, q[1..]) == t || |u.pending| <= env.bound)
  {
    NoMoreWaiting(env, w, q, from, t, fromT);
    OneMore(env, w, q, from, t, fromT);
    u, left := Advance(env, Append(w, q[..1]), q[1..], from, t, fromT);
    if Append(u, q[1..]) != t { StillShort(env, w, q, u, from, t, fromT); }
  }

  lemma StillShort(env: Env, w: Scan, q: string, u: Scan, from: nat, t: Scan, fromT: nat)
    requires OnTheWay(env, w, q, from, t, fromT) && Settled(env, w, q, t)
    requires Append(w, q) == t || |w.pending| <= env.bound
    requires Settled(env, u, q[1..], t) && Append(u, q[1..]) != t
    requires u == Append(w, q[..1]) || |u.pending| < |w.pending + q[..1]|
    requires Append(w, q) != t
    ensures |u.pending| <= env.bound
  {
    if u == Append(w, q[..1]) { WaitGrows(env, w, q[..1]); }
  }

  /** Fed one character after the other, some push goes wrong. */
  lemma {:induction false} CharByChar(env: Env, w: Scan, q: string, from: nat, t: Scan, fromT: nat)
    returns (chunks: seq<string>, last: string)
    requires OnTheWay(env, w, q, from, t, fromT) && Settled(env, w, q, t)
    requires Append(w, q) == t || |w.pending| <= env.bound
    ensures Concat(chunks) + last == q && !AllSound(env, w, chunks, last)
    decreases |q|
  {
    assert q[..1] + q[1..] == q;
    if Sound(env, Append(w, q[..1]), q[1..]) {
      var u, left := CharStep(env, w, q, from, t, fromT);
      chunks, last := CharByChar(env, u, q[1..], left, t, fromT);
      UnsoundLater(env, w, q[..1], chunks, last);
      chunks := [q[..1]] + chunks;
    } else {
      chunks, last := [q[..1]], q[1..];
      UnsoundNow(env, w, q[..1], q[1..]);
    }
  }

  lemma UnsoundNow(env: Env, w: Scan, c: string, last: string)
    requires !Sound(env, Append(w, c), last)
    ensures !AllSound(env, w, [c], last) && Concat([c]) + last == c + last
  {
    assert [c][1..] == [] && "" + last == last && c + "" == c;
  }

  lemma UnsoundLater(env: Env, w: Scan, c: string, chunks: seq<string>, last: string)
    requires !AllSound(env, Run(env, Append(w, c), false), chunks, last)
    ensures !AllSound(env, w, [c] + chunks, last) && Concat([c] + chunks) + last == c + (Concat(chunks) + last)
  {
    assert ([c] + chunks)[0] == c && ([c] + chunks)[1..] == chunks;
    assert c + Concat(chunks) + last == c + (Concat(chunks) + last);
  }

  // ----- from the beginning of the text -----

  lemma SplitAt(text: string, p: string, r: nat) returns (c: string, q: string)
    requires IsSuffix(p, text) && 0 < r < |p|
    ensures c + q == text && |q| == |p| - r && c != "" && c[|c|-1] == p[r-1]
  {
    var front := text[..|text|-|p|];
    c, q := front + p[..r], p[r..];
    assert front + p == text && front + p[..r] + p[r..] == front + p;
  }

  lemma AppendStart(c: string, q: string)
    ensures Append(START, c).pending == c && Append(Append(START, c), q) == Append(START, c + q)
  {}

  lemma StartsOnTheWay(env: Env, c: string, q: string, t: Scan, fromT: nat)
    requires Before(env, Append(START, c + q), 0, t, fromT) && Harmful(env, t, fromT)
    requires q != "" && |t.pending| - |q| == Max(1, fromT) < |t.pending|
    ensures OnTheWay(env, Append(START, c), q, 0, t, fromT)
  {
    AppendStart(c, q);
    HarmBeyond(env, t, fromT);
  }

  lemma FromStart(env: Env, text: string, t: Scan, fromT: nat)
    requires Before(env, Append(START, text), 0, t, fromT)
    ensures IsSuffix(t.pending, text) && LineArrives(t.pending, fromT)
  {
    assert Append(START, text).pending == text;
    BeforeFacts(env, Append(START, text), 0, t, fromT);
  }

  lemma PlaceFacts(env: Env, text: string, t: Scan, fromT: nat)
    requires Before(env, Append(START, text), 0, t, fromT) && Harmful(env, t, fromT)
    ensures IsSuffix(t.pending, text)
    ensures Max(1, fromT) < |t.pending| && t.pending[Max(1, fromT) - 1] != ']'
  {
    FromStart(env, text, t, fromT);
    NoBracketThere(env, t, fromT);
  }

  lemma NoBracketThere(env: Env, t: Scan, fromT: nat)
    requires Harmful(env, t, fromT) && LineArrives(t.pending, fromT)
    ensures Max(1, fromT) < |t.pending| && t.pending[Max(1, fromT) - 1] != ']'
  {
    HarmStarts(env, t, fromT);
    HarmBeyond(env, t, fromT);
  }

  lemma HarmBeyond(env: Env, t: Scan, from: nat)
    requires Harmful(env, t, from)
    ensures Max(1, from) <= Harm(env.bound, t.pending, from) < |t.pending|
  {
    var n := Harm(env.bound, t.pending, from);
  }

  /** What is pushed first: the text up to the harmful place, and what the scanner waits for
      before it gets there. It does not end with a `]`. */
  lemma FirstPush(env: Env, text: string, t: Scan, fromT: nat) returns (c: string, q: string)
    requires Before(env, Append(START, text), 0, t, fromT) && Harmful(env, t, fromT)
    ensures c + q == text && OnTheWay(env, Append(START, c), q, 0, t, fromT)
    ensures c != "" && c[|c|-1] != ']'
  {
    PlaceFacts(env, text, t, fromT);
    var r := Max(1, fromT);
    c, q := SplitAt(text, t.pending, r);
    assert |t.pending| - |q| == r && q != "";
    StartsOnTheWay(env, c, q, t, fromT);
  }

  lemma ShortWait(env: Env, u: Scan, c: string)
    requires Waits(env, u) && c != "" && c[|c|-1] != ']' && IsSuffix(u.pending, c)
    ensures |u.pending| < env.bound
  {
    assert u.pending[|u.pending|-1] == c[|c|-|u.pending|..][|u.pending|-1];
  }

  lemma UnsoundCut(env: Env, text: string) returns (chunks: seq<string>, last: string)
    requires !CutSafe(env, Some(0), text, 0)
    ensures Concat(chunks) + last == text && !AllSound(env, START, chunks, last)
  {
    TextSafe(env, text);
    var t, fromT := WhereUnsafe(env, Append(START, text), 0);
    var c, q := FirstPush(env, text, t, fromT);
    if Sound(env, Append(START, c), q) {
      assert Append(START, c).pending == c;
      var u, left := Advance(env, Append(START, c), q, 0, t, fromT);
      if Append(u, q) != t { ShortWait(env, u, c); }
      chunks, last := CharByChar(env, u, q, left, t, fromT);
      UnsoundLater(env, START, c, chunks, last);
      chunks := [c] + chunks;
    } else {
      UnsoundNow(env, START, c, q);
      chunks, last := [c], q;
    }
  }

  /** A text comes out the same however it is cut if and only if it is safe. */
  lemma SameExactlyWhenSafe(env: Env, text: string)
    requires ShowsTags(env)
    ensures SameHoweverCut(env, text) <==> CutSafe(env, Some(0), text, 0)
  {
    if CutSafe(env, Some(0), text, 0) {
      SafeAnyCut(env, text);
    } else {
      var chunks, last := UnsoundCut(env, text);
      UnsoundCutSpoils(env, text, chunks, last);
    }
  }
}
