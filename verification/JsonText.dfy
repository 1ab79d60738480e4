/** Bytes, UTF-8 and the content of JSON strings: the whole-text decoding that the
    streaming answer decoder has to agree with (section 7 of RFC 8259, with the
    replacement character for unpaired surrogates and malformed bytes). */
module JsonText {
  import opened Options

  type Byte = n: int | 0 <= n < 256

  const QUOTE: Byte := 34
  const BACKSLASH: Byte := 92
  const LETTER_U: Byte := 117
  const REPLACEMENT: seq<Byte> := [0xEF, 0xBF, 0xBD]

  // ----- UTF-8 -----

  /** What the bytes at the front of a text are. */
  datatype Front = Malformed | Incomplete | Rune(size: nat)

  predicate Continuation(b: Byte) { 0x80 <= b <= 0xBF }

  /** The second bytes allowed after a lead byte; the bounds rule out overlong forms,
      surrogates and values beyond U+10FFFF. */
  predicate SecondOk(lead: Byte, b: Byte) {
    && Continuation(b)
    && (lead == 0xE0 ==> b >= 0xA0) && (lead == 0xED ==> b <= 0x9F)
    && (lead == 0xF0 ==> b >= 0x90) && (lead == 0xF4 ==> b <= 0x8F)
  }

  /** Length announced by a lead byte; 0 for bytes that cannot start a character. */
  function RuneSize(lead: Byte): (n: nat)
    ensures n <= 4
  {
    if lead < 0x80 then 1
    else if lead < 0xC2 then 0
    else if lead < 0xE0 then 2
    else if lead < 0xF0 then 3
    else if lead < 0xF5 then 4
    else 0
  }

  predicate TailOk(s: seq<Byte>, n: nat)
    requires 0 < n <= |s|
  {
    && (n > 1 ==> SecondOk(s[0], s[1]))
    && (n > 2 ==> Continuation(s[2]))
    && (n > 3 ==> Continuation(s[3]))
  }

  /** `utf8.FullRuneInString` and `utf8.DecodeRuneInString` together. */
  function Utf8Front(s: seq<Byte>): (f: Front)
    requires s != []
    ensures f.Rune? ==> 0 < f.size <= |s|
  {
    var n := RuneSize(s[0]);
    if n == 0 then Malformed
    else if |s| < n then (if TailOk(s, |s|) then Incomplete else Malformed)
    else if TailOk(s, n) then Rune(n) else Malformed
  }

  ghost predicate ValidUtf8(s: seq<Byte>) {
    s == [] || (Utf8Front(s).Rune? && ValidUtf8(s[Utf8Front(s).size..]))
  }

  predicate IsScalar(code: nat) { code < 0x110000 && !(0xD800 <= code <= 0xDFFF) }

  /** A continuation byte with six bits. */
  function Low(n: nat): (b: Byte)
    ensures Continuation(b)
  {
    0x80 + n % 64
  }

  function TwoBytes(code: nat): (s: seq<Byte>)
    requires 0x80 <= code < 0x800
    ensures |s| == 2 && Utf8Front(s) == Rune(2)
  {
    [0xC0 + code / 64, Low(code)]
  }

  function ThreeBytes(code: nat): (s: seq<Byte>)
    requires 0x800 <= code < 0x10000 && IsScalar(code)
    ensures |s| == 3 && Utf8Front(s) == Rune(3)
  {
    [0xE0 + code / 4096, Low(code / 64), Low(code)]
  }

  function FourBytes(code: nat): (s: seq<Byte>)
    requires 0x10000 <= code && IsScalar(code)
    ensures |s| == 4 && Utf8Front(s) == Rune(4) && s[0] >= 0xF0
  {
    [0xF0 + code / 262144, Low(code / 4096), Low(code / 64), Low(code)]
  }

  function EncodeRune(code: nat): (s: seq<Byte>)
    requires IsScalar(code)
    ensures s != [] && Utf8Front(s) == Rune(|s|)
    ensures code >= 0x10000 ==> s[0] >= 0xF0
  {
    if code < 0x80 then [code]
    else if code < 0x800 then TwoBytes(code)
    else if code < 0x10000 then ThreeBytes(code)
    else FourBytes(code)
  }

  lemma FrontStable(s: seq<Byte>, q: seq<Byte>)
    requires s != [] && !Utf8Front(s).Incomplete?
    ensures Utf8Front(s + q) == Utf8Front(s)
  {
    var t := s + q;
    assert forall k :: 0 <= k < |s| ==> t[k] == s[k];
  }

  lemma {:induction false} ValidConcat(a: seq<Byte>, b: seq<Byte>)
    requires ValidUtf8(a) && ValidUtf8(b)
    ensures ValidUtf8(a + b)
    decreases |a|
  {
    if a == [] {
      assert a + b == b;
    } else {
      var n := Utf8Front(a).size;
      FrontStable(a, b);
      assert (a + b)[n..] == a[n..] + b;
      ValidConcat(a[n..], b);
    }
  }

  lemma OneRune(s: seq<Byte>)
    requires s != [] && Utf8Front(s) == Rune(|s|)
    ensures ValidUtf8(s)
  {
    assert s[|s|..] == [];
  }

  // ----- escapes -----

  predicate IsHex(b: Byte) { 48 <= b <= 57 || 65 <= b <= 70 || 97 <= b <= 102 }

  function HexDigit(b: Byte): (d: nat)
    requires IsHex(b)
    ensures d < 16
  {
    if b <= 57 then b - 48 else if b <= 70 then b - 55 else b - 87
  }

  /** The code of a complete `\uXXXX` at the front. */
  function EscapeCode(s: seq<Byte>): (code: Option<nat>)
    ensures code.Some? ==> code.value < 0x10000
  {
    if |s| >= 6 && s[0] == BACKSLASH && s[1] == LETTER_U
       && IsHex(s[2]) && IsHex(s[3]) && IsHex(s[4]) && IsHex(s[5])
    then Some(HexDigit(s[2]) * 4096 + HexDigit(s[3]) * 256 + HexDigit(s[4]) * 16 + HexDigit(s[5]))
    else None
  }

  predicate IsHigh(code: nat) { 0xD800 <= code <= 0xDBFF }

  predicate IsLow(code: nat) { 0xDC00 <= code <= 0xDFFF }

  predicate HighAt(s: seq<Byte>) { EscapeCode(s).Some? && IsHigh(EscapeCode(s).value) }

  predicate LowAt(s: seq<Byte>) { EscapeCode(s).Some? && IsLow(EscapeCode(s).value) }

  function Combine(high: nat, low: nat): (code: nat)
    requires IsHigh(high) && IsLow(low)
    ensures IsScalar(code) && code >= 0x10000
  {
    0x10000 + (high - 0xD800) * 1024 + (low - 0xDC00)
  }

  /** The character of a two-byte escape. */
  function ShortEscape(b: Byte): Option<Byte> {
    if b == 34 || b == 92 || b == 47 then Some(b)
    else if b == 98 then Some(8)
    else if b == 102 then Some(12)
    else if b == 110 then Some(10)
    else if b == 114 then Some(13)
    else if b == 116 then Some(9)
    else None
  }

  /** One lexical unit of string content: its length and the text it stands for. */
  datatype Token = Token(size: nat, text: seq<Byte>)

  function EscapeToken(s: seq<Byte>): (t: Option<Token>)
    requires s != [] && s[0] == BACKSLASH
    ensures t.Some? ==> 0 < t.value.size <= |s|
  {
    if |s| < 2 then None
    else if s[1] != LETTER_U then
      (match ShortEscape(s[1]) case None => None case Some(b) => Some(Token(2, [b])))
    else match EscapeCode(s)
      case None => None
      case Some(code) =>
        if IsHigh(code) && LowAt(s[6..]) then
          Some(Token(12, EncodeRune(Combine(code, EscapeCode(s[6..]).value))))
        else if IsHigh(code) || IsLow(code) then Some(Token(6, REPLACEMENT))
        else Some(Token(6, EncodeRune(code)))
  }

  /** Quotes and control characters cannot stand in a string; malformed bytes are replaced. */
  function FirstToken(s: seq<Byte>): (t: Option<Token>)
    requires s != []
    ensures t.Some? ==> 0 < t.value.size <= |s|
  {
    if s[0] == QUOTE || s[0] < 0x20 then None
    else if s[0] == BACKSLASH then EscapeToken(s)
    else match Utf8Front(s)
      case Rune(n) => Some(Token(n, s[..n]))
      case _ => Some(Token(1, REPLACEMENT))
  }

  /** Decoding the whole content of a JSON string; `None` when it is not valid content. */
  function Unquote(s: seq<Byte>): Option<seq<Byte>> {
    if s == [] then Some([])
    else match FirstToken(s)
      case None => None
      case Some(t) =>
        match Unquote(s[t.size..])
        case None => None
        case Some(rest) => Some(t.text + rest)
  }

  lemma {:induction false} UnquoteOne(s: seq<Byte>, t: Token)
    requires s != [] && FirstToken(s) == Some(t)
    requires t.size == |s|
    ensures Unquote(s) == Some(t.text)
  {
    assert s[|s|..] == [];
    assert t.text + [] == t.text;
  }

  lemma {:induction false} UnquoteValid(s: seq<Byte>)
    requires Unquote(s).Some?
    ensures ValidUtf8(Unquote(s).value)
  {
    if s != [] {
      var t := FirstToken(s).value;
      TokenValid(s);
      UnquoteValid(s[t.size..]);
      ValidConcat(t.text, Unquote(s[t.size..]).value);
    }
  }

  lemma TokenValid(s: seq<Byte>)
    requires s != [] && FirstToken(s).Some?
    ensures ValidUtf8(FirstToken(s).value.text)
  {
    var t := FirstToken(s).value;
    assert Utf8Front(REPLACEMENT) == Rune(3);
    if s[0] == BACKSLASH {
      if t.size == 2 { assert Utf8Front(t.text) == Rune(1); }
    } else if Utf8Front(s).Rune? {
      assert t.text == s[..t.size] && t.text[0] == s[0];
      assert TailOk(t.text, t.size);
    }
    OneRune(t.text);
  }

  // ----- cutting string content in two -----

  /** Cutting off what follows a unit does not change the unit. */
  lemma TokenPrefix(s: seq<Byte>, n: nat)
    requires 0 < n <= |s| && FirstToken(s).Some? && FirstToken(s).value.size <= n
    ensures FirstToken(s[..n]) == FirstToken(s)
  {
    var p := s[..n];
    assert p[0] == s[0];
    if s[0] == BACKSLASH {
      EscapePrefix(s, n);
    } else if Utf8Front(s).Rune? {
      FrontPrefix(s, n);
      assert p[..Utf8Front(s).size] == s[..Utf8Front(s).size];
    } else {
      FrontPrefix(s, n);
    }
  }

  lemma EscapePrefix(s: seq<Byte>, n: nat)
    requires 0 < n <= |s| && s[0] == BACKSLASH && EscapeToken(s).Some? && EscapeToken(s).value.size <= n
    ensures EscapeToken(s[..n]) == EscapeToken(s)
  {
    var p := s[..n];
    if s[1] == LETTER_U {
      assert EscapeCode(p) == EscapeCode(s);
      assert p[6..] == s[6..n];
      if n >= 12 {
        assert EscapeCode(p[6..]) == EscapeCode(s[6..]);
      }
    }
  }

  /** A prefix long enough to hold the character has the same front; in a shorter one,
      or where the front was not a character, there is none. */
  lemma FrontPrefix(s: seq<Byte>, n: nat)
    requires 0 < n <= |s|
    ensures Utf8Front(s).Rune? && Utf8Front(s).size <= n ==> Utf8Front(s[..n]) == Utf8Front(s)
    ensures Utf8Front(s).Rune? && Utf8Front(s).size > n ==> !Utf8Front(s[..n]).Rune? && Continuation(s[n])
    ensures !Utf8Front(s).Rune? ==> !Utf8Front(s[..n]).Rune?
  {
    var p := s[..n];
    assert forall k :: 0 <= k < n ==> p[k] == s[k];
  }

  /** Position `n` lies between two units of the content. */
  predicate Boundary(s: seq<Byte>, n: nat)
    decreases |s|
  {
    n == 0 ||
    (s != [] && FirstToken(s).Some? && FirstToken(s).value.size <= n
     && Boundary(s[FirstToken(s).value.size..], n - FirstToken(s).value.size))
  }

  function Join(a: Option<seq<Byte>>, b: Option<seq<Byte>>): Option<seq<Byte>> {
    if a.Some? && b.Some? then Some(a.value + b.value) else None
  }

  /** Content cut between two units decodes piece by piece. */
  lemma {:induction false} UnquoteSplit(s: seq<Byte>, n: nat)
    requires Boundary(s, n) && n <= |s|
    ensures Unquote(s[..n]).Some? && Unquote(s) == Join(Unquote(s[..n]), Unquote(s[n..]))
    decreases |s|
  {
    if n == 0 {
      assert s[..0] == [] && s[0..] == s;
      if Unquote(s).Some? { assert [] + Unquote(s).value == Unquote(s).value; }
    } else {
      var t := FirstToken(s).value;
      var k := t.size;
      TokenPrefix(s, n);
      UnquoteSplit(s[k..], n - k);
      CutSlices(s, k, n);
      JoinAfter(t.text, Unquote(s[k..][..n-k]).value, Unquote(s[n..]));
    }
  }

  lemma CutSlices(s: seq<Byte>, k: nat, n: nat)
    requires k <= n <= |s|
    ensures s[..n][k..] == s[k..][..n-k] && s[k..][n-k..] == s[n..]
  {}

  lemma JoinAfter(t: seq<Byte>, a: seq<Byte>, b: Option<seq<Byte>>)
    ensures b.Some? ==> t + (a + b.value) == (t + a) + b.value
  {}

  predicate Diverge(a: seq<Byte>, b: seq<Byte>) {
    exists i :: 0 <= i < |a| && i < |b| && a[i] != b[i]
  }

  lemma DivergeAfter(t: seq<Byte>, a: seq<Byte>, b: seq<Byte>)
    requires Diverge(a, b)
    ensures Diverge(t + a, t + b)
  {
    var i :| 0 <= i < |a| && i < |b| && a[i] != b[i];
    assert (t + a)[|t|+i] == a[i] && (t + b)[|t|+i] == b[i];
  }

  /** A piece that decodes although it was not cut between two units ends inside a
      character or between the halves of a surrogate pair. */
  predicate CutInside(s: seq<Byte>, n: nat)
    requires n <= |s| && Unquote(s[..n]).Some?
  {
    && n < |s|
    && (Continuation(s[n])
        || (LowAt(s[n..])
            && (Unquote(s[n..]).Some? ==>
                  Unquote(s).Some? && Diverge(Unquote(s[..n]).value, Unquote(s).value))))
  }

  lemma {:induction false} CutOutside(s: seq<Byte>, n: nat)
    requires n <= |s| && Unquote(s[..n]).Some? && !Boundary(s, n)
    ensures CutInside(s, n)
    decreases |s|
  {
    var t := FirstToken(s[..n]).value;
    if s[0] == BACKSLASH { CutEscape(s, n); } else { CutRaw(s, n); }
    if FirstToken(s) == Some(t) {
      assert s[..n][t.size..] == s[t.size..][..n-t.size];
      CutOutside(s[t.size..], n - t.size);
      CutAfter(s, t, n);
    }
  }

  lemma CutAfter(s: seq<Byte>, t: Token, n: nat)
    requires 0 < t.size <= n <= |s|
    requires FirstToken(s) == Some(t) && FirstToken(s[..n]) == Some(t)
    requires Unquote(s[t.size..][..n-t.size]).Some? && CutInside(s[t.size..], n - t.size)
    ensures Unquote(s[..n]).Some? && CutInside(s, n)
  {
    var k := t.size;
    var rest := s[k..];
    assert s[..n][k..] == rest[..n-k] && rest[n-k..] == s[n..];
    if Unquote(s[n..]).Some? && !Continuation(s[n]) {
      DivergeAfter(t.text, Unquote(rest[..n-k]).value, Unquote(rest).value);
    }
  }

  lemma CutRaw(s: seq<Byte>, n: nat)
    requires 0 < n <= |s| && s[0] != BACKSLASH && Unquote(s[..n]).Some?
    ensures FirstToken(s).Some?
    ensures FirstToken(s) == FirstToken(s[..n]) || CutInside(s, n)
  {
    FrontPrefix(s, n);
    if FirstToken(s).value.size <= n { TokenPrefix(s, n); }
  }

  /** An escape that a cut changes is a surrogate pair cut in the middle. */
  lemma CutEscape(s: seq<Byte>, n: nat)
    requires 0 < n <= |s| && s[0] == BACKSLASH && Unquote(s[..n]).Some?
    ensures FirstToken(s).Some?
    ensures FirstToken(s) == FirstToken(s[..n]) || CutInside(s, n)
  {
    var p := s[..n];
    if s[1] == LETTER_U {
      assert EscapeCode(p) == EscapeCode(s);
      if HighAt(s) && LowAt(s[6..]) {
        if n < 12 { PairCut(s, n); } else { assert EscapeCode(p[6..]) == EscapeCode(s[6..]); }
      } else if LowAt(p[6..]) {
        assert EscapeCode(p[6..]) == EscapeCode(s[6..]);
      }
    }
  }

  lemma PairCut(s: seq<Byte>, n: nat)
    requires 6 <= n < 12 <= |s| && HighAt(s) && LowAt(s[6..]) && Unquote(s[..n]).Some?
    ensures CutInside(s, n)
  {
    var p := s[..n];
    assert EscapeCode(p) == EscapeCode(s) && |p[6..]| < 6;
    assert FirstToken(p) == Some(Token(6, REPLACEMENT));
    if n > 6 {
      assert false;
    }
    assert p[6..] == [];
    assert Unquote(p).value == REPLACEMENT + [];
    var rest := s[6..];
    if Unquote(rest).Some? {
      assert FirstToken(rest) == Some(Token(6, REPLACEMENT));
      assert rest[6..] == s[12..];
      var pair := FirstToken(s).value.text;
      assert Unquote(s) == Some(pair + Unquote(s[12..]).value);
      assert (pair + Unquote(s[12..]).value)[0] == pair[0] >= 0xF0;
      assert Unquote(p).value[0] == 0xEF;
    }
  }
}
