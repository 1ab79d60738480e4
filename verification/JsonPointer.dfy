/** JSON Pointer resolution (RFC 6901): which strings name a part of a value, and which part. */
module JsonPointer {
  import opened Options

  datatype Json =
    | Scalar(literal: string)
    | Str(text: string)
    | Arr(items: seq<Json>)
    | Obj(fields: map<string, Json>)

  // ----- decimal numbers -----

  function Digit(d: nat): char
    requires d < 10
  {
    "0123456789"[d]
  }

  predicate IsDigit(c: char) { '0' <= c <= '9' }

  function DigitValue(c: char): (d: nat)
    requires IsDigit(c)
    ensures d < 10 && Digit(d) == c
  {
    c as int - '0' as int
  }

  /** `strconv.Itoa` of a number that is not negative. */
  function Itoa(n: nat): (s: string)
    ensures s != "" && forall k :: 0 <= k < |s| ==> IsDigit(s[k])
  {
    if n < 10 then [Digit(n)] else Itoa(n / 10) + [Digit(n % 10)]
  }

  function Digits(s: string): (n: Option<nat>)
    ensures n.Some? <==> forall k :: 0 <= k < |s| ==> IsDigit(s[k])
  {
    if s == "" then Some(0)
    else
      var k := |s| - 1;
      match Digits(s[..k])
      case None => None
      case Some(high) => if IsDigit(s[k]) then Some(high * 10 + DigitValue(s[k])) else None
  }

  /** `strconv.Atoi`: an optional sign and digits. Lists are far shorter than the width of
      an integer, so a number that overflows is out of range like any other large one. */
  function Atoi(s: string): Option<int> {
    var signed := s != "" && (s[0] == '+' || s[0] == '-');
    var body := if signed then s[1..] else s;
    if body == "" then None
    else
      match Digits(body)
      case None => None
      case Some(n) => var value: int := n; Some(if signed && s[0] == '-' then 0 - value else value)
  }

  lemma {:induction false} DigitsOfItoa(n: nat)
    ensures Digits(Itoa(n)) == Some(n)
  {
    if n < 10 {
      assert Itoa(n)[..0] == "";
    } else {
      DigitsOfItoa(n / 10);
      var s := Itoa(n);
      assert s[..|s|-1] == Itoa(n / 10) && s[|s|-1] == Digit(n % 10);
    }
  }

  lemma AtoiOfItoa(n: nat)
    ensures Atoi(Itoa(n)) == Some(n)
  {
    DigitsOfItoa(n);
    assert IsDigit(Itoa(n)[0]);
  }

  // ----- escaping -----

  function Escape(key: string): string {
    if key == "" then ""
    else (if key[0] == '~' then "~0" else if key[0] == '/' then "~1" else [key[0]]) + Escape(key[1..])
  }

  /** Every `~` is followed by `0` or `1`. */
  predicate EscapesOk(part: string) {
    part == "" ||
    if part[0] == '~' then |part| >= 2 && (part[1] == '0' || part[1] == '1') && EscapesOk(part[2..])
    else EscapesOk(part[1..])
  }

  /** `strings.ReplaceAll` of the two characters `a b` by `c`. */
  function ReplaceAll(s: string, a: char, b: char, c: char): string {
    if s == "" then ""
    else if |s| >= 2 && s[0] == a && s[1] == b then [c] + ReplaceAll(s[2..], a, b, c)
    else [s[0]] + ReplaceAll(s[1..], a, b, c)
  }

  /** The two passes of the code: first `~1`, then `~0`. */
  function Unescape(part: string): string { ReplaceAll(ReplaceAll(part, '~', '1', '/'), '~', '0', '~') }

  /** Reading the escapes from left to right. */
  function UnescapeOnce(part: string): string
    requires EscapesOk(part)
  {
    if part == "" then ""
    else if part[0] == '~' then [if part[1] == '0' then '~' else '/'] + UnescapeOnce(part[2..])
    else [part[0]] + UnescapeOnce(part[1..])
  }

  /** On every part the validity loop accepts, the two passes equal one pass. */
  lemma {:induction false} TwoPassesAreOne(part: string)
    requires EscapesOk(part)
    ensures Unescape(part) == UnescapeOnce(part)
  {
    if part != "" {
      if part[0] == '~' {
        var rest := ReplaceAll(part[2..], '~', '1', '/');
        TwoPassesAreOne(part[2..]);
        if part[1] == '0' {
          assert part[1..][0] == '0' && part[1..][1..] == part[2..];
          assert ReplaceAll(part[1..], '~', '1', '/') == "0" + rest;
          assert ReplaceAll(part, '~', '1', '/') == "~0" + rest;
          assert ("~0" + rest)[2..] == rest;
        } else {
          assert ReplaceAll(part, '~', '1', '/') == "/" + rest;
          assert ("/" + rest)[1..] == rest;
        }
      } else {
        var rest := ReplaceAll(part[1..], '~', '1', '/');
        TwoPassesAreOne(part[1..]);
        assert ReplaceAll(part, '~', '1', '/') == [part[0]] + rest;
        assert ([part[0]] + rest)[1..] == rest;
      }
    }
  }

  lemma {:induction false} EscapeRoundTrip(key: string)
    ensures EscapesOk(Escape(key)) && '/' !in Escape(key) && UnescapeOnce(Escape(key)) == key
  {
    if key != "" {
      EscapeRoundTrip(key[1..]);
      var rest := Escape(key[1..]);
      if key[0] == '~' || key[0] == '/' {
        assert Escape(key)[2..] == rest;
      } else {
        assert Escape(key)[1..] == rest;
      }
    }
  }

  lemma {:induction false} UnescapeRoundTrip(part: string)
    requires EscapesOk(part) && '/' !in part
    ensures Escape(UnescapeOnce(part)) == part
  {
    if part != "" {
      assert part[0] in part;
      if part[0] == '~' {
        UnescapeRoundTrip(part[2..]);
        assert UnescapeOnce(part)[1..] == UnescapeOnce(part[2..]);
        assert part == part[..2] + part[2..];
      } else {
        UnescapeRoundTrip(part[1..]);
        assert UnescapeOnce(part)[1..] == UnescapeOnce(part[1..]);
        assert part == [part[0]] + part[1..];
      }
    }
  }

  // ----- splitting -----

  function SlashAt(s: string): (n: nat)
    ensures n <= |s| && '/' !in s[..n] && (n < |s| ==> s[n] == '/')
  {
    if s == "" || s[0] == '/' then 0
    else
      var n := 1 + SlashAt(s[1..]);
      assert s[..n] == [s[0]] + s[1..][..n-1];
      n
  }

  /** `strings.Split(s, "/")`. */
  function Split(s: string): (parts: seq<string>)
    ensures parts != [] && forall k :: 0 <= k < |parts| ==> '/' !in parts[k]
    decreases |s|
  {
    var n := SlashAt(s);
    if n == |s| then assert s[..n] == s; [s] else [s[..n]] + Split(s[n+1..])
  }

  function Join(parts: seq<string>): string
    requires parts != []
  {
    if |parts| == 1 then parts[0] else parts[0] + "/" + Join(parts[1..])
  }

  lemma JoinCons(first: string, parts: seq<string>)
    requires parts != []
    ensures Join([first] + parts) == first + "/" + Join(parts)
  {
    assert ([first] + parts)[0] == first && ([first] + parts)[1..] == parts;
  }

  lemma {:induction false} JoinSplit(s: string)
    ensures Join(Split(s)) == s
    decreases |s|
  {
    var n := SlashAt(s);
    if n < |s| {
      var rest := s[n+1..];
      JoinSplit(rest);
      JoinCons(s[..n], Split(rest));
      assert Split(s) == [s[..n]] + Split(rest);
      assert s == s[..n] + "/" + rest;
    } else {
      assert Split(s) == [s];
    }
  }

  lemma {:induction false} SlashAfter(part: string, rest: string)
    requires '/' !in part
    ensures SlashAt(part + "/" + rest) == |part| && SlashAt(part) == |part|
  {
    var s := part + "/" + rest;
    if part != "" {
      assert s[0] == part[0] && part[0] in part && s[1..] == part[1..] + "/" + rest;
      SlashAfter(part[1..], rest);
    }
  }

  lemma SplitFirst(part: string, rest: string)
    requires '/' !in part
    ensures Split(part) == [part] && Split(part + "/" + rest) == [part] + Split(rest)
  {
    var s := part + "/" + rest;
    SlashAfter(part, rest);
    assert s[..|part|] == part && s[|part|+1..] == rest;
  }

  lemma {:induction false} SplitJoin(parts: seq<string>)
    requires parts != [] && forall k :: 0 <= k < |parts| ==> '/' !in parts[k]
    ensures Split(Join(parts)) == parts
  {
    if |parts| == 1 {
      SplitFirst(parts[0], "");
    } else {
      SplitJoin(parts[1..]);
      SplitFirst(parts[0], Join(parts[1..]));
      assert [parts[0]] + parts[1..] == parts;
    }
  }

  // ----- resolving -----

  /** One part of a pointer applied to a value. */
  function Child(v: Json, part: string): Option<Json> {
    if !EscapesOk(part) then None
    else
      var key := Unescape(part);
      match v
      case Obj(fields) => if key in fields then Some(fields[key]) else None
      case Arr(items) =>
        (match Atoi(key)
         case None => None
         case Some(index) => if index < 0 || index >= |items| || Itoa(index) != key then None else Some(items[index]))
      case _ => None
  }

  function Walk(v: Json, parts: seq<string>): Option<Json>
    decreases |parts|
  {
    if parts == [] then Some(v)
    else match Child(v, parts[0]) case None => None case Some(w) => Walk(w, parts[1..])
  }

  /** `artifactJSONPointer` on the decoded value. */
  function Resolve(v: Json, pointer: string): Option<Json> {
    if pointer == "" then Some(v)
    else if pointer[0] != '/' then None
    else Walk(v, Split(pointer[1..]))
  }

  method CheckEscapes(part: string) returns (ok: bool)
    ensures ok == EscapesOk(part)
  {
    var i := 0;
    assert part[0..] == part;
    while i < |part|
      invariant 0 <= i <= |part| && EscapesOk(part) == EscapesOk(part[i..])
    {
      var rest := part[i..];
      if part[i] == '~' {
        if i + 1 >= |part| || (part[i+1] != '0' && part[i+1] != '1') { return false; }
        assert rest[2..] == part[i+2..];
        i := i + 1;
      } else {
        assert rest[1..] == part[i+1..];
      }
      i := i + 1;
    }
    ok := true;
  }

  /** The pointer walk: `value` descends part by part. */
  method ResolvePointer(v: Json, pointer: string) returns (found: Option<Json>)
    ensures found == Resolve(v, pointer)
  {
    if pointer == "" { return Some(v); }
    if pointer[0] != '/' { return None; }
    var parts, value := Split(pointer[1..]), v;
    assert parts[0..] == parts;
    for i := 0 to |parts|
      invariant Walk(v, parts) == Walk(value, parts[i..])
    {
      assert parts[i..][0] == parts[i] && parts[i..][1..] == parts[i+1..];
      var ok := CheckEscapes(parts[i]);
      if !ok { return None; }
      var next := Child(value, parts[i]);
      if next.None? { return None; }
      value := next.value;
    }
    found := Some(value);
  }

  // ----- paths -----

  datatype Step = Key(name: string) | Index(i: nat)

  predicate StepOk(v: Json, s: Step) {
    match s
    case Key(name) => v.Obj? && name in v.fields
    case Index(i) => v.Arr? && i < |v.items|
  }

  function Down(v: Json, s: Step): Json
    requires StepOk(v, s)
  {
    match s case Key(name) => v.fields[name] case Index(i) => v.items[i]
  }

  /** The path leads somewhere in the value. */
  predicate PathOk(v: Json, path: seq<Step>)
    decreases |path|
  {
    path == [] || (StepOk(v, path[0]) && PathOk(Down(v, path[0]), path[1..]))
  }

  function At(v: Json, path: seq<Step>): Json
    requires PathOk(v, path)
    decreases |path|
  {
    if path == [] then v else At(Down(v, path[0]), path[1..])
  }

  function PartOf(s: Step): string { match s case Key(name) => Escape(name) case Index(i) => Itoa(i) }

  function Parts(path: seq<Step>): (parts: seq<string>)
    ensures |parts| == |path|
  {
    if path == [] then [] else [PartOf(path[0])] + Parts(path[1..])
  }

  /** Escaping the keys and joining them with slashes. */
  function Pointer(path: seq<Step>): string {
    if path == [] then "" else "/" + Join(Parts(path))
  }

  lemma {:induction false} PlainEscape(key: string)
    requires forall k :: 0 <= k < |key| ==> IsDigit(key[k])
    ensures Escape(key) == key
  {
    if key != "" { PlainEscape(key[1..]); }
  }

  lemma PartIsKey(s: Step)
    ensures EscapesOk(PartOf(s)) && '/' !in PartOf(s)
    ensures Unescape(PartOf(s)) == match s case Key(name) => name case Index(i) => Itoa(i)
  {
    var key := match s case Key(name) => name case Index(i) => Itoa(i);
    if s.Index? { PlainEscape(key); }
    EscapeRoundTrip(key);
    TwoPassesAreOne(PartOf(s));
  }

  lemma ChildOfPart(v: Json, s: Step)
    requires StepOk(v, s)
    ensures Child(v, PartOf(s)) == Some(Down(v, s))
  {
    PartIsKey(s);
    if s.Index? { AtoiOfItoa(s.i); }
  }

  lemma {:induction false} WalkParts(v: Json, path: seq<Step>)
    requires PathOk(v, path)
    ensures Walk(v, Parts(path)) == Some(At(v, path))
    ensures forall k :: 0 <= k < |path| ==> '/' !in Parts(path)[k]
    decreases |path|
  {
    if path != [] {
      ChildOfPart(v, path[0]);
      PartIsKey(path[0]);
      WalkParts(Down(v, path[0]), path[1..]);
      assert Parts(path)[1..] == Parts(path[1..]);
    }
  }

  /** Round trip: for every value and every path in it, the path's pointer resolves to
      exactly the value at the path. */
  lemma PointerResolves(v: Json, path: seq<Step>)
    requires PathOk(v, path)
    ensures Resolve(v, Pointer(path)) == Some(At(v, path))
  {
    if path != [] {
      WalkParts(v, path);
      SplitJoin(Parts(path));
      assert Pointer(path)[1..] == Join(Parts(path));
    }
  }

  lemma ChildIsStep(v: Json, part: string) returns (s: Step)
    requires Child(v, part).Some? && '/' !in part
    ensures StepOk(v, s) && PartOf(s) == part && Down(v, s) == Child(v, part).value
  {
    var key := Unescape(part);
    TwoPassesAreOne(part);
    UnescapeRoundTrip(part);
    if v.Obj? {
      s := Key(key);
    } else {
      s := Index(Atoi(key).value);
      PlainEscape(key);
    }
  }

  lemma {:induction false} WalkIsPath(v: Json, parts: seq<string>) returns (path: seq<Step>)
    requires Walk(v, parts).Some? && forall k :: 0 <= k < |parts| ==> '/' !in parts[k]
    ensures PathOk(v, path) && Parts(path) == parts && At(v, path) == Walk(v, parts).value
    decreases |parts|
  {
    path := [];
    if parts != [] {
      var s := ChildIsStep(v, parts[0]);
      var rest := WalkIsPath(Down(v, s), parts[1..]);
      path := [s] + rest;
      assert path[1..] == rest;
    }
  }

  /** A string resolves exactly when it is the pointer of a path in the value: no other
      spelling of a key or an index is accepted. */
  lemma ResolvesExactlyPointers(v: Json, pointer: string)
    ensures Resolve(v, pointer).Some? <==>
              exists path :: PathOk(v, path) && Pointer(path) == pointer && Resolve(v, pointer) == Some(At(v, path))
  {
    if Resolve(v, pointer).Some? {
      if pointer == "" {
        assert PathOk(v, []) && Pointer([]) == pointer && Resolve(v, pointer) == Some(At(v, []));
      } else {
        var path := WalkIsPath(v, Split(pointer[1..]));
        JoinSplit(pointer[1..]);
        assert "/" + pointer[1..] == pointer;
        assert PathOk(v, path) && Pointer(path) == pointer && Resolve(v, pointer) == Some(At(v, path));
      }
    }
  }
}
