/** Reading a stored artifact page by page: a selection makes a view of the content, a
    page is as much of the view as fits a token budget, and every page can be replayed
    later from the reference that was recorded for it. */
module ArtifactPager {
  import opened LongestFit
  import opened Options

  datatype Selection =
    | Source
    | JsonPath(path: string, decoded: bool)
    | ChunkId(id: string)
    | Section(title: string, start: nat)

  /** A reference to a stretch of a view; `text` is that stretch. */
  datatype Reference = Reference(
    artifact: string, selection: Option<Selection>,
    offset: int, next: int, total: int, text: string, complete: bool)

  datatype Env = Env(
    pointerView: (string, string, bool) -> Option<string>,    // content, JSON Pointer, decoded text
    chunk: (string, string) -> Option<string>,                // content, chunk id
    section: (string, string) -> Option<(nat, nat)>,          // content, title: a range
    textPath: (string, string) -> Option<string>,             // where a keyword's text is embedded
    cost: Reference -> int)                                   // tokens of the serialized page

  /** Section ranges lie within the content. */
  ghost predicate EnvOk(env: Env) {
    forall c, t :: env.section(c, t).Some? ==> env.section(c, t).value.0 <= env.section(c, t).value.1 <= |c|
  }

  datatype Request = Request(
    artifact: string, offset: int, limit: int, keyword: string,
    section: string, path: Option<string>, chunk: string)

  datatype Policy = Policy(runes: nat, tokens: int)

  datatype Error =
    | BadOffset | BadLimit | TooManySelectors | BadPath | BadChunk | NoSuchSection
    | OffsetTooLarge | KeywordNotFound | NoRoom

  datatype Result<T> = Ok(value: T) | Err(error: Error)

  datatype View = View(text: string, selection: Selection)

  // ----- choosing the view -----

  predicate SelectorsOk(req: Request) {
    var keyword, section, path, chunk := req.keyword != "", req.section != "", req.path.Some?, req.chunk != "";
    if section then !keyword && !path && !chunk
    else if chunk then !keyword && !path
    else true
  }

  function CountSelectors(req: Request): nat {
    (if req.keyword != "" then 1 else 0) + (if req.section != "" then 1 else 0)
    + (if req.path.Some? then 1 else 0) + (if req.chunk != "" then 1 else 0)
  }

  /** A keyword inside an embedded text reads the decoded text. */
  function PathOf(env: Env, content: string, req: Request): Option<string> {
    if req.path.None? && req.keyword != "" then env.textPath(content, req.keyword) else req.path
  }

  function ViewOf(env: Env, content: string, req: Request): Result<View>
    requires EnvOk(env)
  {
    var path := PathOf(env, content, req);
    if path.Some? then
      match env.pointerView(content, path.value, true)
      case None => Err(BadPath)
      case Some(text) => Ok(View(text, JsonPath(path.value, true)))
    else if req.chunk != "" then
      match env.chunk(content, req.chunk)
      case None => Err(BadChunk)
      case Some(text) => Ok(View(text, ChunkId(req.chunk)))
    else if req.section != "" then
      match env.section(content, req.section)
      case None => Err(NoSuchSection)
      case Some(range) => Ok(View(content[range.0..range.1], Section(req.section, range.0)))
    else Ok(View(content, Source))
  }

  // ----- locating a keyword -----

  predicate OccursAt(text: string, keyword: string, i: nat) { i <= |text| && keyword <= text[i..] }

  /** `locateArtifact`: the first occurrence at or after the offset. */
  method Locate(text: string, keyword: string, offset: nat) returns (found: Option<nat>)
    ensures found.Some? ==> offset <= found.value <= |text| && OccursAt(text, keyword, found.value)
                            && forall k: nat :: offset <= k < found.value ==> !OccursAt(text, keyword, k)
    ensures found.None? ==> forall k: nat :: offset <= k ==> !OccursAt(text, keyword, k)
    ensures found == Located(text, keyword, offset)
  {
    var i := offset;
    while i <= |text|
      invariant offset <= i && forall k: nat :: offset <= k < i ==> !OccursAt(text, keyword, k)
      invariant Located(text, keyword, offset) == Located(text, keyword, i)
      decreases |text| - i
    {
      if keyword <= text[i..] { return Some(i); }
      i := i + 1;
    }
    found := None;
  }

  function Located(text: string, keyword: string, offset: nat): (found: Option<nat>)
    ensures found.Some? ==> offset <= found.value <= |text|
    decreases |text| - offset
  {
    if offset > |text| then None
    else if OccursAt(text, keyword, offset) then Some(offset)
    else Located(text, keyword, offset + 1)
  }

  // ----- one page -----

  function PageAt(artifact: string, view: View, offset: nat, size: nat): Reference
    requires offset + size <= |view.text|
  {
    Reference(artifact, Some(view.selection), offset, offset + size, |view.text|,
              view.text[offset..offset+size], offset + size == |view.text|)
  }

  predicate PageFits(env: Env, tokens: int, artifact: string, view: View, offset: nat, size: nat) {
    offset + size <= |view.text| && env.cost(PageAt(artifact, view, offset, size)) <= tokens
  }

  function Least(n: nat): nat { if n == 0 then 0 else 1 }

  /** The size of the page at `offset`: all that was asked for when it fits, otherwise
      what the search finds, and at least one character unless the view has ended. */
  function PageSize(env: Env, tokens: int, artifact: string, view: View, offset: nat, asked: nat): (size: Option<nat>)
    requires offset + asked <= |view.text|
    ensures size.Some? ==> size.value <= asked && PageFits(env, tokens, artifact, view, offset, size.value)
    ensures size.Some? && asked > 0 ==> size.value > 0
  {
    if PageFits(env, tokens, artifact, view, offset, asked) then Some(asked)
    else Search((k: nat) => PageFits(env, tokens, artifact, view, offset, k), Least(asked), asked - 1, None)
  }

  method FindPageSize(env: Env, tokens: int, artifact: string, view: View, offset: nat, asked: nat)
    returns (size: Option<nat>)
    requires offset + asked <= |view.text|
    ensures size == PageSize(env, tokens, artifact, view, offset, asked)
  {
    if env.cost(PageAt(artifact, view, offset, asked)) <= tokens { return Some(asked); }
    var fits := (k: nat) => PageFits(env, tokens, artifact, view, offset, k);
    size := SearchLoop(fits, if asked == 0 then 0 else 1, asked - 1);
  }

  /** When longer pages never cost less, the page is the longest that fits. */
  lemma PageIsLongest(env: Env, tokens: int, artifact: string, view: View, offset: nat, asked: nat)
    requires offset + asked <= |view.text|
    requires forall i: nat, j: nat :: i <= j <= asked && PageFits(env, tokens, artifact, view, offset, j) ==>
               PageFits(env, tokens, artifact, view, offset, i)
    ensures var size := PageSize(env, tokens, artifact, view, offset, asked);
            && (forall k: nat :: Least(asked) <= k <= asked && PageFits(env, tokens, artifact, view, offset, k) ==>
                  size.Some? && k <= size.value)
            && (size.None? <==> forall k: nat :: Least(asked) <= k <= asked ==>
                 !PageFits(env, tokens, artifact, view, offset, k))
  {
    var size := PageSize(env, tokens, artifact, view, offset, asked);
    forall k: nat | Least(asked) <= k <= asked && PageFits(env, tokens, artifact, view, offset, k)
      ensures size.Some? && k <= size.value
    {
      if !PageFits(env, tokens, artifact, view, offset, asked) {
        SearchIsLongest((n: nat) => PageFits(env, tokens, artifact, view, offset, n), Least(asked), asked - 1, None, k);
      }
    }
    if size.Some? { assert Least(asked) <= size.value; }
  }

  function Asked(policy: Policy, limit: int): (n: nat)
    requires limit >= 0
    ensures n <= policy.runes
  {
    if limit == 0 || limit > policy.runes then policy.runes else limit
  }

  function Min(a: int, b: int): int { if a <= b then a else b }

  /** The page at an offset of a view. */
  function PageFrom(env: Env, policy: Policy, artifact: string, view: View, offset: nat, limit: int): Result<Reference>
    requires offset <= |view.text| && limit >= 0
  {
    match PageSize(env, policy.tokens, artifact, view, offset, Min(|view.text| - offset, Asked(policy, limit)))
    case None => Err(NoRoom)
    case Some(size) => Ok(PageAt(artifact, view, offset, size))
  }

  /** `read_context_artifact` on an artifact that was found and verified. */
  function Read(env: Env, policy: Policy, content: string, req: Request): Result<Reference>
    requires EnvOk(env)
  {
    if req.offset < 0 then Err(BadOffset)
    else if req.limit < 0 then Err(BadLimit)
    else if !SelectorsOk(req) then Err(TooManySelectors)
    else
      match ViewOf(env, content, req)
      case Err(e) => Err(e)
      case Ok(view) =>
        if req.offset > |view.text| then Err(OffsetTooLarge)
        else if req.keyword == "" then PageFrom(env, policy, req.artifact, view, req.offset, req.limit)
        else
          match Located(view.text, req.keyword, req.offset)
          case None => Err(KeywordNotFound)
          case Some(position) => PageFrom(env, policy, req.artifact, view, position, req.limit)
  }

  method ReadArtifact(env: Env, policy: Policy, content: string, req: Request) returns (result: Result<Reference>)
    requires EnvOk(env)
    ensures result == Read(env, policy, content, req)
  {
    if req.offset < 0 { return Err(BadOffset); }
    if req.limit < 0 { return Err(BadLimit); }
    var selectors := CountSelectors(req);
    if selectors > 1 && !(selectors == 2 && req.path.Some? && req.keyword != "") { return Err(TooManySelectors); }
    match ViewOf(env, content, req) {
      case Err(e) => return Err(e);
      case Ok(view) =>
        if req.offset > |view.text| { return Err(OffsetTooLarge); }
        result := ReadView(env, policy, view, req);
    }
  }

  method ReadView(env: Env, policy: Policy, view: View, req: Request) returns (result: Result<Reference>)
    requires 0 <= req.offset <= |view.text| && req.limit >= 0
    ensures result == if req.keyword == "" then PageFrom(env, policy, req.artifact, view, req.offset, req.limit)
                      else match Located(view.text, req.keyword, req.offset)
                           case None => Err(KeywordNotFound)
                           case Some(position) => PageFrom(env, policy, req.artifact, view, position, req.limit)
  {
    var offset: nat := req.offset;
    if req.keyword != "" {
      var found := Locate(view.text, req.keyword, offset);
      if found.None? { return Err(KeywordNotFound); }
      offset := found.value;
    }
    result := ReadPage(env, policy, req.artifact, view, offset, req.limit);
  }

  method ReadPage(env: Env, policy: Policy, artifact: string, view: View, offset: nat, limit: int)
    returns (result: Result<Reference>)
    requires offset <= |view.text| && limit >= 0
    ensures result == PageFrom(env, policy, artifact, view, offset, limit)
  {
    var most := if limit == 0 || limit > policy.runes then policy.runes else limit;
    var size := FindPageSize(env, policy.tokens, artifact, view, offset, Min(|view.text| - offset, most));
    if size.None? { return Err(NoRoom); }
    result := Ok(PageAt(artifact, view, offset, size.value));
  }

  // ----- following next_offset -----

  /** One call of the reader: its token allowance and the limit it asks for may differ from
      call to call. */
  datatype Turn = Turn(policy: Policy, limit: int)

  predicate TurnsOk(turns: seq<Turn>) { forall t :: t in turns ==> t.limit >= 0 && t.policy.runes > 0 }

  function TurnPage(env: Env, turn: Turn, artifact: string, view: View, offset: nat): Result<Reference>
    requires offset <= |view.text| && turn.limit >= 0
  {
    PageFrom(env, turn.policy, artifact, view, offset, turn.limit)
  }

  /** The pages a reader gets by following `next` from an offset, one call a turn, until one
      is complete or it stops calling. */
  function Follow(env: Env, turns: seq<Turn>, artifact: string, view: View, offset: nat): Result<seq<Reference>>
    requires offset <= |view.text| && TurnsOk(turns)
    decreases |turns|
  {
    if turns == [] then Ok([])
    else
      match TurnPage(env, turns[0], artifact, view, offset)
      case Err(e) => Err(e)
      case Ok(page) =>
        if page.complete then Ok([page])
        else
          match Follow(env, turns[1..], artifact, view, page.next)
          case Err(e) => Err(e)
          case Ok(more) => Ok([page] + more)
  }

  function Texts(pages: seq<Reference>): string {
    if pages == [] then "" else pages[0].text + Texts(pages[1..])
  }

  /** How far the pages reach. */
  function End(offset: nat, pages: seq<Reference>): int {
    if pages == [] then offset else pages[|pages|-1].next
  }

  predicate Done(pages: seq<Reference>) { pages != [] && pages[|pages|-1].complete }

  /** The pages make up the view from `offset` to where they end: each continues where the
      previous one ended, none but a lone first one is empty, and only a last one that
      reaches the end of the view is complete. */
  ghost predicate Reassemble(view: View, offset: nat, pages: seq<Reference>)
    requires offset <= |view.text|
  {
    && offset <= End(offset, pages) <= |view.text| && Texts(pages) == view.text[offset..End(offset, pages)]
    && (pages != [] ==> pages[0].offset == offset)
    && (forall i :: 0 <= i < |pages| ==> (pages[i].complete <==> pages[i].next == |view.text|))
    && (forall i :: 0 <= i < |pages| - 1 ==> pages[i].next == pages[i+1].offset > pages[i].offset && !pages[i].complete)
  }

  lemma ReassembleMore(view: View, offset: nat, page: Reference, more: seq<Reference>)
    requires offset < page.next < |view.text| && page.offset == offset && !page.complete
    requires page.text == view.text[offset..page.next] && Reassemble(view, page.next, more)
    ensures Reassemble(view, offset, [page] + more)
  {
    var pages := [page] + more;
    var end := End(page.next, more);
    assert pages[0] == page && pages[1..] == more && End(offset, pages) == end;
    assert view.text[offset..page.next] + view.text[page.next..end] == view.text[offset..end];
  }

  lemma ReassembleOne(view: View, offset: nat, page: Reference)
    requires offset <= |view.text| && page.offset == offset && page.complete && page.next == |view.text|
    requires page.text == view.text[offset..]
    ensures Reassemble(view, offset, [page])
  {
    assert [page][1..] == [] && page.text + "" == page.text;
    assert view.text[offset..|view.text|] == view.text[offset..];
  }

  lemma DoneIsAll(view: View, offset: nat, pages: seq<Reference>)
    requires offset <= |view.text| && Reassemble(view, offset, pages) && Done(pages)
    ensures Texts(pages) == view.text[offset..]
  {
    assert view.text[offset..|view.text|] == view.text[offset..];
  }

  /** Following `next` reads the view without gap or overlap, however allowance and limit
      change on the way, and whoever calls once more than there are characters left has it
      all. */
  lemma {:induction false} PagesReassemble(env: Env, turns: seq<Turn>, artifact: string, view: View, offset: nat)
    requires offset <= |view.text| && TurnsOk(turns) && Follow(env, turns, artifact, view, offset).Ok?
    ensures var pages := Follow(env, turns, artifact, view, offset).value;
            && Reassemble(view, offset, pages) && |pages| <= |turns|
            && (|pages| < |turns| || |turns| > |view.text| - offset ==> Done(pages))
            && (Done(pages) ==> Texts(pages) == view.text[offset..])
    decreases |turns|
  {
    if turns == [] {
      assert view.text[offset..offset] == "";
    } else {
      var page := TurnPage(env, turns[0], artifact, view, offset).value;
      if page.complete {
        ReassembleOne(view, offset, page);
        DoneIsAll(view, offset, [page]);
      } else {
        PagesReassemble(env, turns[1..], artifact, view, page.next);
        var more := Follow(env, turns[1..], artifact, view, page.next).value;
        ReassembleMore(view, offset, page, more);
        if Done([page] + more) { DoneIsAll(view, offset, [page] + more); }
      }
    }
  }

  /** No call fails whenever a page of one character always fits. */
  lemma {:induction false} ReaderFinishes(env: Env, turns: seq<Turn>, artifact: string, view: View, offset: nat)
    requires offset <= |view.text| && TurnsOk(turns)
    requires forall t, o: nat, n: nat :: t in turns && o + n <= |view.text| && n <= 1 ==>
               PageFits(env, t.policy.tokens, artifact, view, o, n)
    ensures Follow(env, turns, artifact, view, offset).Ok?
    decreases |turns|
  {
    if turns != [] {
      var turn := turns[0];
      var asked: nat := Min(|view.text| - offset, Asked(turn.policy, turn.limit));
      SomePage(env, turn.policy.tokens, artifact, view, offset, asked);
      var page := TurnPage(env, turn, artifact, view, offset).value;
      if !page.complete { ReaderFinishes(env, turns[1..], artifact, view, page.next); }
    }
  }

  lemma SomePage(env: Env, tokens: int, artifact: string, view: View, offset: nat, asked: nat)
    requires offset + asked <= |view.text| && PageFits(env, tokens, artifact, view, offset, Least(asked))
    ensures PageSize(env, tokens, artifact, view, offset, asked).Some?
  {
    if !PageFits(env, tokens, artifact, view, offset, asked) {
      SearchFindsSome((k: nat) => PageFits(env, tokens, artifact, view, offset, k), Least(asked), asked - 1);
    }
  }

  // ----- replaying a recorded reference -----

  function ReplayView(env: Env, content: string, s: Selection): Option<string>
    requires EnvOk(env)
  {
    match s
    case Source => Some(content)
    case JsonPath(path, decoded) => env.pointerView(content, path, decoded)
    case ChunkId(id) => env.chunk(content, id)
    case Section(title, start) =>
      match env.section(content, title)
      case None => None
      case Some(range) => if range.0 != start then None else Some(content[range.0..range.1])
  }

  /** `artifactEvidenceView`. */
  function EvidenceView(env: Env, content: string, ref: Reference): Option<string>
    requires EnvOk(env)
  {
    if ref.selection.None? then Some(content)
    else
      match ReplayView(env, content, ref.selection.value)
      case None => None
      case Some(text) =>
        if ref.offset < 0 || ref.next < ref.offset || ref.next > |text| || ref.total != |text| then None
        else Some(text[ref.offset..ref.next])
  }

  predicate SamePlace(a: Reference, b: Reference) {
    a.artifact == b.artifact && a.selection == b.selection && a.offset == b.offset && a.next == b.next
  }

  function Stripped(ref: Reference): Reference {
    ref.(selection := if ref.selection.None? && ref.total > 0 then Some(Source) else ref.selection, text := "")
  }

  /** `appendArtifactReference`: only the place is recorded, and each place once. */
  method Record(refs: seq<Reference>, ref: Reference) returns (r: seq<Reference>)
    ensures r == Recorded(refs, ref)
  {
    var bare := Stripped(ref);
    for i := 0 to |refs|
      invariant forall k :: 0 <= k < i ==> !SamePlace(refs[k], bare)
    {
      if SamePlace(refs[i], bare) { return refs; }
    }
    r := refs + [bare];
  }

  function Recorded(refs: seq<Reference>, ref: Reference): seq<Reference> {
    if exists k :: 0 <= k < |refs| && SamePlace(refs[k], Stripped(ref)) then refs else refs + [Stripped(ref)]
  }

  ghost predicate PlacesDistinct(refs: seq<Reference>) {
    forall i, j :: 0 <= i < j < |refs| ==> !SamePlace(refs[i], refs[j])
  }

  /** A recorded page is replayed to exactly the text that was read, and recording keeps
      the places distinct and the earlier references in front. */
  lemma ReplayIsExact(env: Env, policy: Policy, content: string, req: Request, refs: seq<Reference>)
    requires EnvOk(env) && Read(env, policy, content, req).Ok? && PlacesDistinct(refs)
    ensures var page := Read(env, policy, content, req).value;
            && EvidenceView(env, content, Stripped(page)) == Some(page.text)
            && PlacesDistinct(Recorded(refs, page)) && refs <= Recorded(refs, page)
            && exists k :: 0 <= k < |Recorded(refs, page)| && SamePlace(Recorded(refs, page)[k], page)
  {
    var page := Read(env, policy, content, req).value;
    var view := ViewOf(env, content, req).value;
    assert ReplayView(env, content, view.selection) == Some(view.text);
    assert SamePlace(Stripped(page), page);
    var r := Recorded(refs, page);
    if r != refs {
      assert r[|refs|] == Stripped(page);
    }
  }

  /** The selected references to an artifact that are recorded can all be replayed. */
  predicate Replayable(env: Env, content: string, artifact: string, refs: seq<Reference>)
    requires EnvOk(env)
  {
    forall k :: 0 <= k < |refs| && refs[k].artifact == artifact && refs[k].selection.Some? ==>
      EvidenceView(env, content, refs[k]).Some?
  }

  lemma SamePlaceReplays(env: Env, content: string, a: Reference, b: Reference)
    requires EnvOk(env) && SamePlace(a, b) && a.selection.Some?
    requires EvidenceView(env, content, a).Some? && EvidenceView(env, content, b).Some?
    ensures EvidenceView(env, content, a) == EvidenceView(env, content, b)
  {}

  /** Recording keeps what is recorded replayable, and whichever reference stands for the
      page's place, an earlier one or the new one, replays to exactly the page. */
  lemma RecordedReplays(env: Env, policy: Policy, content: string, req: Request, refs: seq<Reference>)
    requires EnvOk(env) && Read(env, policy, content, req).Ok? && Replayable(env, content, req.artifact, refs)
    ensures var page := Read(env, policy, content, req).value;
            var r := Recorded(refs, page);
            && Replayable(env, content, req.artifact, r)
            && (exists k :: 0 <= k < |r| && SamePlace(r[k], page))
            && forall k :: 0 <= k < |r| && SamePlace(r[k], page) ==> EvidenceView(env, content, r[k]) == Some(page.text)
  {
    var page := Read(env, policy, content, req).value;
    var view, r := ViewOf(env, content, req).value, Recorded(refs, page);
    assert ReplayView(env, content, view.selection) == Some(view.text);
    assert EvidenceView(env, content, Stripped(page)) == Some(page.text) && SamePlace(Stripped(page), page);
    if r != refs { assert r[|refs|] == Stripped(page); }
    forall k | 0 <= k < |r| && SamePlace(r[k], page) ensures EvidenceView(env, content, r[k]) == Some(page.text) {
      if k < |refs| { SamePlaceReplays(env, content, r[k], Stripped(page)); }
    }
  }
}
