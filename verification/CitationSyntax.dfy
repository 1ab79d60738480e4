/** What the scanners of the citation rewriter find, said character by character, and what
    each piece of a text comes out as. Nothing here is said in terms of the scanners. */
module CitationSyntax {
  import opened CitationScan
  import opened Options

  // ----- tag names -----

  /** The same letter, whatever its case: `b` is a small one. */
  predicate SameLetter(a: char, b: char) {
    a == b || ('A' <= a <= 'Z' && a as int + 32 == b as int)
  }

  /** The text begins with the name, and something that may follow a name comes next. */
  predicate Names(p: string, name: string) {
    && |p| > |name| && (forall i :: 0 <= i < |name| ==> SameLetter(p[i], name[i]))
    && (p[|name|] == ' ' || p[|name|] == '\t' || p[|name|] == '\r' || p[|name|] == '\n'
        || p[|name|] == '/' || p[|name|] == '>')
  }

  /** The text is, so far, a beginning of the name. */
  predicate MayName(p: string, name: string) {
    |p| <= |name| && forall i :: 0 <= i < |p| ==> SameLetter(p[i], name[i])
  }

  lemma LowerLetter(p: string, name: string)
    requires |p| == |name| && forall i :: 0 <= i < |name| ==> !('A' <= name[i] <= 'Z')
    ensures Lower(p) == name <==> forall i :: 0 <= i < |name| ==> SameLetter(p[i], name[i])
  {
    assert forall i :: 0 <= i < |p| ==> Lower(p)[i] == if 'A' <= p[i] <= 'Z' then p[i] - 'A' + 'a' else p[i];
  }

  lemma FullName(p: string, kind: Kind, name: string)
    requires name == Opening(kind) && forall i :: 0 <= i < |name| ==> !('A' <= name[i] <= 'Z')
    ensures IsFull(p, kind) <==> Names(p, name)
  {
    if |p| > |name| {
      LowerLetter(p[..|name|], name);
      assert forall i :: 0 <= i < |name| ==> p[..|name|][i] == p[i];
    }
  }

  lemma PartName(p: string, kind: Kind, name: string)
    requires name == Opening(kind) && forall i :: 0 <= i < |name| ==> !('A' <= name[i] <= 'Z')
    ensures IsPartial(p, kind) <==> MayName(p, name)
  {
    if |p| <= |name| {
      LowerLetter(p, name[..|p|]);
      assert forall i :: 0 <= i < |p| ==> name[..|p|][i] == name[i];
    }
  }

  /** Exactly three names are recognised, in any case, and only when a delimiter follows;
      a text that could still become a tag is told apart from one that cannot. */
  lemma TagNames(p: string)
    ensures PrefixOf(p) == Full(Cite) <==> Names(p, "<cite")
    ensures PrefixOf(p) == Full(Kb) <==> Names(p, "<kb")
    ensures PrefixOf(p) == Full(Web) <==> Names(p, "<web")
    ensures PrefixOf(p).Partial? <==> MayName(p, "<cite") || MayName(p, "<kb") || MayName(p, "<web")
    ensures PrefixOf(p) == Partial(Cite) <==> MayName(p, "<cite")
    ensures PrefixOf(p) == Partial(Kb) <==> MayName(p, "<kb") && |p| > 1
    ensures PrefixOf(p) == Partial(Web) <==> MayName(p, "<web") && |p| > 1
  {
    FullName(p, Cite, "<cite");
    FullName(p, Kb, "<kb");
    FullName(p, Web, "<web");
    PartName(p, Cite, "<cite");
    PartName(p, Kb, "<kb");
    PartName(p, Web, "<web");
    InTurn(p);
    if |p| > 1 { assert "<cite"[1] == 'c' && "<kb"[1] == 'k' && "<web"[1] == 'w'; }
  }

  lemma InTurn(p: string)
    ensures PrefixOf(p)
            == if IsPartial(p, Cite) then Partial(Cite) else if IsFull(p, Cite) then Full(Cite)
               else if IsPartial(p, Kb) then Partial(Kb) else if IsFull(p, Kb) then Full(Kb)
               else if IsPartial(p, Web) then Partial(Web) else if IsFull(p, Web) then Full(Web)
               else NoTag
  {
    var two, one := [Kb, Web], [Web];
    assert KINDS[1..] == two && two[1..] == one && one[1..] == [];
    assert PrefixAmong(p, one) == if IsPartial(p, Web) then Partial(Web)
                                  else if IsFull(p, Web) then Full(Web) else NoTag;
    assert PrefixAmong(p, KINDS) == if IsPartial(p, Cite) then Partial(Cite)
                                    else if IsFull(p, Cite) then Full(Cite) else PrefixAmong(p, two);
  }

  // ----- the end of a tag -----

  /** The quote that is open before position `k` of a tag. */
  function QuoteAt(p: string, k: nat): (q: Option<char>)
    requires 1 <= k <= |p|
    decreases k
  {
    if k == 1 then None
    else
      var before := QuoteAt(p, k - 1);
      match before
      case Some(q) => if p[k-1] == q then None else before
      case None => if p[k-1] == '\'' || p[k-1] == '"' then Some(p[k-1]) else None
  }

  /** A quote is open if and only if it was opened outside quotes and has not come again. */
  lemma {:induction false} QuoteOpen(p: string, k: nat, q: char)
    requires 1 <= k <= |p|
    ensures QuoteAt(p, k) == Some(q)
            <==> (q == '\'' || q == '"')
                 && exists o :: 1 <= o < k && p[o] == q && QuoteAt(p, o).None? && forall j :: o < j < k ==> p[j] != q
    decreases k
  {
    if k > 1 {
      QuoteOpen(p, k - 1, q);
      if QuoteAt(p, k).Some? && QuoteAt(p, k - 1).None? { assert p[k-1] == QuoteAt(p, k).value; }
    }
  }

  predicate TagStop(p: string, k: nat) { 1 <= k < |p| && p[k] == '>' && QuoteAt(p, k).None? }

  lemma {:induction false} TagEndFrom(p: string, i: nat)
    requires 1 <= i <= |p|
    ensures var r := TagEnd(p, i, QuoteAt(p, i));
            && (forall k :: r == Some(k) ==> TagStop(p, k))
            && (forall j :: i <= j < (if r.Some? then r.value else |p|) ==> !TagStop(p, j))
    decreases |p| - i
  {
    if i < |p| { TagEndFrom(p, i + 1); }
  }

  predicate TagStopsAt(p: string, k: nat) { TagStop(p, k) && forall j :: 1 <= j < k ==> !TagStop(p, j) }

  predicate TagNeverStops(p: string) { forall j :: 1 <= j < |p| ==> !TagStop(p, j) }

  /** A tag ends with the first `>` outside quotes. */
  lemma TagEndsFirst(p: string, k: nat)
    requires p != ""
    ensures TagEnd(p, 1, None) == Some(k) <==> TagStopsAt(p, k)
    ensures TagEnd(p, 1, None).None? <==> TagNeverStops(p)
  {
    TagEndFrom(p, 1);
  }

  // ----- brackets -----

  /** A backslash stands before the character, and is not itself escaped. */
  predicate Escaped(p: string, k: nat)
    requires k <= |p|
    decreases k
  {
    k > 0 && p[k-1] == '\\' && !Escaped(p, k - 1)
  }

  /** How many unescaped `c` stand before position `k`. */
  function Count(p: string, c: char, k: nat): nat
    requires k <= |p|
  {
    if k == 0 then 0 else Count(p, c, k - 1) + if p[k-1] == c && !Escaped(p, k - 1) then 1 else 0
  }

  /** The bracket at `k` closes as many as have been opened. */
  predicate Balances(p: string, open: char, close: char, k: nat) {
    k < |p| && p[k] == close && !Escaped(p, k) && Count(p, open, k + 1) == Count(p, close, k + 1)
  }

  lemma {:induction false} ClosingFrom(p: string, open: char, close: char, i: nat)
    requires open != close && open != '\\' && close != '\\' && i <= |p| && !Escaped(p, i)
    ensures var r := Closing(p, open, close, i, Count(p, open, i) - Count(p, close, i));
            && (r.Some? ==> Balances(p, open, close, r.value))
            && (forall j :: i <= j < (if r.Some? then r.value else |p|) ==> !Balances(p, open, close, j))
    decreases |p| - i
  {
    if i < |p| {
      if p[i] == '\\' {
        if i + 1 < |p| {
          assert Escaped(p, i + 1) && !Escaped(p, i + 2);
          ClosingFrom(p, open, close, i + 2);
        }
      } else {
        ClosingFrom(p, open, close, i + 1);
      }
    }
  }

  predicate ClosedAt(p: string, open: char, close: char, k: nat) {
    Balances(p, open, close, k) && forall j :: 0 <= j < k ==> !Balances(p, open, close, j)
  }

  predicate NeverClosed(p: string, open: char, close: char) {
    forall j :: 0 <= j < |p| ==> !Balances(p, open, close, j)
  }

  /** A bracket is closed by the first unescaped one that balances. */
  lemma ClosesFirst(p: string, open: char, close: char, k: nat)
    requires open != close && open != '\\' && close != '\\'
    ensures Closing(p, open, close, 0, 0) == Some(k) <==> ClosedAt(p, open, close, k)
    ensures Closing(p, open, close, 0, 0).None? <==> NeverClosed(p, open, close)
  {
    ClosingFrom(p, open, close, 0);
  }

  // ----- runs and code spans -----

  /** A run of exactly `width` backticks starts at `i`. */
  predicate TickRun(p: string, i: nat, width: nat) {
    && i + width <= |p| && (forall k :: i <= k < i + width ==> p[k] == '`')
    && (i > 0 ==> p[i-1] != '`') && (i + width < |p| ==> p[i+width] != '`')
  }

  lemma {:induction false} SpanEndFrom(p: string, width: nat, i: nat, final: bool)
    requires width > 0 && i <= |p| && (i > 0 && i < |p| && p[i] == '`' ==> p[i-1] != '`')
    ensures var r := SpanEnd(p, width, i, final);
            && (r.Some? ==> i + width <= r.value && TickRun(p, r.value - width, width) && (final || r.value < |p|))
            && (forall j :: i <= j && (if r.Some? then j + width < r.value else j + width < |p| || final)
                  ==> !TickRun(p, j, width))
    decreases |p| - i
  {
    if i < |p| {
      if p[i] != '`' {
        SpanEndFrom(p, width, i + 1, final);
      } else {
        var e := RunEnd(p, '`', i);
        RunIsUniform(p, '`', i);
        assert TickRun(p, i, e - i);
        if !(e == |p| && !final) && e - i != width { SpanEndFrom(p, width, e, final); }
      }
    }
  }

  /** The first run of exactly `width` backticks ends at `e`. */
  predicate SpanStopsAt(p: string, width: nat, e: nat) {
    e >= width && TickRun(p, e - width, width) && forall j :: 0 <= j < e - width ==> !TickRun(p, j, width)
  }

  predicate SpanNeverStops(p: string, width: nat) { forall j :: 0 <= j <= |p| ==> !TickRun(p, j, width) }

  /** A code span ends with the first run of exactly the opening width; while more may come,
      a run that the text ends in does not count. */
  lemma SpanEndsFirst(p: string, width: nat, e: nat, final: bool)
    requires width > 0
    ensures SpanEnd(p, width, 0, final) == Some(e) <==> SpanStopsAt(p, width, e) && (final || e < |p|)
    ensures SpanEnd(p, width, 0, true).None? <==> SpanNeverStops(p, width)
  {
    SpanEndFrom(p, width, 0, final);
    SpanEndFrom(p, width, 0, true);
  }
}
