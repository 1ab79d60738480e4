/** What a call of the artifact reader is answered with, case by case and field by field. */
module ArtifactViews {
  import opened ArtifactPager
  import opened Options

  // ----- refusals -----

  /** Only a path and a keyword may be given together. */
  predicate OneSelector(req: Request) {
    && (req.section != "" ==> req.keyword == "" && req.path.None? && req.chunk == "")
    && (req.chunk != "" ==> req.keyword == "" && req.path.None? && req.section == "")
  }

  /** Offset, limit and selectors are checked first, in this order. */
  lemma RefusedFirst(env: Env, policy: Policy, content: string, req: Request)
    requires EnvOk(env)
    ensures req.offset < 0 ==> Read(env, policy, content, req) == Err(BadOffset)
    ensures req.offset >= 0 && req.limit < 0 ==> Read(env, policy, content, req) == Err(BadLimit)
    ensures req.offset >= 0 && req.limit >= 0 && !OneSelector(req) ==>
              Read(env, policy, content, req) == Err(TooManySelectors)
  {}

  // ----- the view -----

  /** A path selects the decoded text at that path. */
  lemma PathView(env: Env, content: string, req: Request, path: string)
    requires EnvOk(env) && OneSelector(req)
    requires req.path == Some(path)
             || (req.path.None? && req.keyword != "" && env.textPath(content, req.keyword) == Some(path))
    ensures ViewOf(env, content, req)
            == match env.pointerView(content, path, true)
               case Some(text) => Ok(View(text, JsonPath(path, true)))
               case None => Err(BadPath)
  {}

  /** A chunk id selects the chunk, */
  lemma ChunkView(env: Env, content: string, req: Request)
    requires EnvOk(env) && OneSelector(req) && req.chunk != ""
    ensures ViewOf(env, content, req)
            == match env.chunk(content, req.chunk)
               case Some(text) => Ok(View(text, ChunkId(req.chunk)))
               case None => Err(BadChunk)
  {}

  /** a section title the range of that section, */
  lemma SectionView(env: Env, content: string, req: Request)
    requires EnvOk(env) && OneSelector(req) && req.section != ""
    ensures match env.section(content, req.section)
            case Some((start, end)) =>
              ViewOf(env, content, req) == Ok(View(content[start..end], Section(req.section, start)))
            case None => ViewOf(env, content, req) == Err(NoSuchSection)
  {}

  /** and anything else the whole content. */
  lemma SourceView(env: Env, content: string, req: Request)
    requires EnvOk(env) && req.section == "" && req.chunk == "" && req.path.None?
    requires req.keyword == "" || env.textPath(content, req.keyword).None?
    ensures ViewOf(env, content, req) == Ok(View(content, Source))
  {}

  // ----- the page -----

  /** The keyword stands at position `i` of the text. */
  predicate StandsAt(text: string, keyword: string, i: nat) {
    i + |keyword| <= |text| && forall k :: 0 <= k < |keyword| ==> text[i+k] == keyword[k]
  }

  lemma StandsWhereItOccurs(text: string, keyword: string, i: nat)
    ensures OccursAt(text, keyword, i) <==> i <= |text| && StandsAt(text, keyword, i)
  {
    if OccursAt(text, keyword, i) {
      assert forall k :: 0 <= k < |keyword| ==> text[i..][k] == keyword[k];
    }
    if i <= |text| && StandsAt(text, keyword, i) {
      assert text[i..][..|keyword|] == keyword;
    }
  }

  lemma {:induction false} LocatedFirst(text: string, keyword: string, offset: nat)
    ensures match Located(text, keyword, offset)
            case Some(i) => offset <= i <= |text| && StandsAt(text, keyword, i)
                            && forall k :: offset <= k < i ==> !StandsAt(text, keyword, k)
            case None => forall k :: offset <= k <= |text| ==> !StandsAt(text, keyword, k)
    decreases |text| - offset
  {
    if offset <= |text| {
      StandsWhereItOccurs(text, keyword, offset);
      if !OccursAt(text, keyword, offset) { LocatedFirst(text, keyword, offset + 1); }
    }
  }

  /** Where the page starts: at the offset, or at the first occurrence of the keyword from
      there on. */
  predicate StartsAt(text: string, req: Request, at: nat) {
    if req.keyword == "" then at == req.offset
    else 0 <= req.offset <= at <= |text| && StandsAt(text, req.keyword, at)
         && forall k :: req.offset <= k < at ==> !StandsAt(text, req.keyword, k)
  }

  /** How much may be returned at most: what was asked for, the reader's own limit if nothing or
      more was, and never more than is left. */
  function Most(policy: Policy, req: Request, left: nat): nat
    requires req.limit >= 0
  {
    var asked: nat := if 0 < req.limit <= policy.runes then req.limit else policy.runes;
    if asked < left then asked else left
  }

  predicate Affordable(env: Env, policy: Policy, req: Request, view: View, at: nat, size: nat) {
    at + size <= |view.text|
    && env.cost(Reference(req.artifact, Some(view.selection), at, at + size, |view.text|, view.text[at..at+size],
                          at + size == |view.text|)) <= policy.tokens
  }

  /** What an accepted call gets: the stretch of the view that starts there, all that may be
      returned if its cost is within the allowance, with the offset to read on from. */
  lemma PageReturned(env: Env, policy: Policy, content: string, req: Request, view: View, at: nat)
    requires EnvOk(env) && req.offset >= 0 && req.limit >= 0 && OneSelector(req)
    requires ViewOf(env, content, req) == Ok(view) && req.offset <= |view.text| && StartsAt(view.text, req, at)
    ensures var most := Most(policy, req, |view.text| - at);
            match Read(env, policy, content, req)
            case Ok(page) =>
              && at <= page.next <= at + most && (most > 0 ==> page.next > at)
              && (Affordable(env, policy, req, view, at, most) ==> page.next == at + most)
              && Affordable(env, policy, req, view, at, page.next - at)
              && page == Reference(req.artifact, Some(view.selection), at, page.next, |view.text|,
                                   view.text[at..page.next], page.next == |view.text|)
            case Err(e) => e == NoRoom && !Affordable(env, policy, req, view, at, most)
  {
    LocatedIs(view.text, req, at);
    assert Read(env, policy, content, req) == PageFrom(env, policy, req.artifact, view, at, req.limit);
    PageOf(env, policy, req, view, at);
  }

  lemma PageOf(env: Env, policy: Policy, req: Request, view: View, at: nat)
    requires req.limit >= 0 && at <= |view.text|
    ensures var most := Most(policy, req, |view.text| - at);
            match PageFrom(env, policy, req.artifact, view, at, req.limit)
            case Ok(page) =>
              && at <= page.next <= at + most && (most > 0 ==> page.next > at)
              && (Affordable(env, policy, req, view, at, most) ==> page.next == at + most)
              && Affordable(env, policy, req, view, at, page.next - at)
              && page == Reference(req.artifact, Some(view.selection), at, page.next, |view.text|,
                                   view.text[at..page.next], page.next == |view.text|)
            case Err(e) => e == NoRoom && !Affordable(env, policy, req, view, at, most)
  {
    var most := Most(policy, req, |view.text| - at);
    assert Min(|view.text| - at, Asked(policy, req.limit)) == most;
    FitsIs(env, policy, req, view, at, most);
    var size := PageSize(env, policy.tokens, req.artifact, view, at, most);
    if size.Some? { FitsIs(env, policy, req, view, at, size.value); }
  }

  lemma FitsIs(env: Env, policy: Policy, req: Request, view: View, at: nat, size: nat)
    ensures PageFits(env, policy.tokens, req.artifact, view, at, size) <==> Affordable(env, policy, req, view, at, size)
  {}

  lemma LocatedIs(text: string, req: Request, at: nat)
    requires req.offset >= 0 && StartsAt(text, req, at)
    ensures req.keyword != "" ==> Located(text, req.keyword, req.offset) == Some(at)
  {
    LocatedFirst(text, req.keyword, req.offset);
  }

  /** Behind the view, and where the keyword does not occur any more, there is no page. */
  lemma NoPage(env: Env, policy: Policy, content: string, req: Request, view: View)
    requires EnvOk(env) && req.offset >= 0 && req.limit >= 0 && OneSelector(req)
    requires ViewOf(env, content, req) == Ok(view)
    ensures req.offset > |view.text| ==> Read(env, policy, content, req) == Err(OffsetTooLarge)
    ensures req.offset <= |view.text| && req.keyword != ""
            && (forall k :: req.offset <= k <= |view.text| ==> !StandsAt(view.text, req.keyword, k))
            ==> Read(env, policy, content, req) == Err(KeywordNotFound)
  {
    if 0 <= req.offset <= |view.text| { LocatedFirst(view.text, req.keyword, req.offset); }
  }

  /** A call whose view cannot be built is refused with the reason. */
  lemma NoView(env: Env, policy: Policy, content: string, req: Request, e: Error)
    requires EnvOk(env) && req.offset >= 0 && req.limit >= 0 && OneSelector(req)
    requires ViewOf(env, content, req) == Err(e)
    ensures Read(env, policy, content, req) == Err(e)
  {}

  // ----- recording and replaying -----

  /** A page is recorded without its text and once for each place; a reference without a
      selection that says how long its view is stands for the whole content. */
  lemma RecordedAs(refs: seq<Reference>, ref: Reference)
    ensures var selection := if ref.selection.None? && ref.total > 0 then Some(Source) else ref.selection;
            var bare := Reference(ref.artifact, selection, ref.offset, ref.next, ref.total, "", ref.complete);
            var known := exists k :: 0 <= k < |refs| && refs[k].artifact == ref.artifact
                                     && refs[k].selection == selection && refs[k].offset == ref.offset
                                     && refs[k].next == ref.next;
            Recorded(refs, ref) == if known then refs else refs + [bare]
  {
    if k :| 0 <= k < |refs| && SamePlace(refs[k], Stripped(ref)) {
      assert refs[k].artifact == ref.artifact && refs[k].offset == ref.offset && refs[k].next == ref.next;
    }
  }

  /** The text that a selection of the content stands for. */
  ghost predicate Selects(env: Env, content: string, selection: Selection, text: string)
    requires EnvOk(env)
  {
    match selection
    case Source => text == content
    case JsonPath(path, decoded) => env.pointerView(content, path, decoded) == Some(text)
    case ChunkId(id) => env.chunk(content, id) == Some(text)
    case Section(title, start) =>
      match env.section(content, title)
      case None => false
      case Some((a, b)) => a == start && text == content[a..b]
  }

  /** A reference replays exactly when its selection still stands for a text of the recorded
      length and its range lies in it, and then to that range; without a selection it replays
      to the content. */
  lemma ReplayedIs(env: Env, content: string, ref: Reference, text: string)
    requires EnvOk(env)
    ensures ref.selection.None? ==> EvidenceView(env, content, ref) == Some(content)
    ensures ref.selection.Some? ==>
              (EvidenceView(env, content, ref) == Some(text)
               <==> exists view :: Selects(env, content, ref.selection.value, view) && ref.total == |view|
                                   && 0 <= ref.offset <= ref.next <= |view| && text == view[ref.offset..ref.next])
  {
    if ref.selection.Some? {
      var view := ReplayView(env, content, ref.selection.value);
      if view.Some? { assert Selects(env, content, ref.selection.value, view.value); }
    }
  }
}
