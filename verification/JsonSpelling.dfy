/** What the characters of a JSON string mean, said from the other side: every way to write
    a text in a string (section 7 of RFC 8259) is decoded to that text, in one piece and as
    a stream. Code points are read off the bytes by arithmetic. */
module JsonSpelling {
  import opened AnswerAgreement
  import opened AnswerDecoder
  import opened JsonText
  import opened Options

  // ----- characters and their bytes -----

  /** The code point that one to four bytes stand for. */
  function CodeOf(s: seq<Byte>): int
    requires 1 <= |s| <= 4
  {
    if |s| == 1 then s[0]
    else if |s| == 2 then (s[0] as int - 0xC0) * 0x40 + (s[1] as int - 0x80)
    else if |s| == 3 then (s[0] as int - 0xE0) * 0x1000 + (s[1] as int - 0x80) * 0x40 + (s[2] as int - 0x80)
    else (s[0] as int - 0xF0) * 0x40000 + (s[1] as int - 0x80) * 0x1000 + (s[2] as int - 0x80) * 0x40
         + (s[3] as int - 0x80)
  }

  function SizeOf(code: int): nat {
    if code < 0x80 then 1 else if code < 0x800 then 2 else if code < 0x10000 then 3 else 4
  }

  lemma Digits64(n: nat)
    ensures n == n / 64 * 64 + n % 64
    ensures n / 64 * 64 == n / 4096 * 4096 + n / 64 % 64 * 64
    ensures n / 4096 * 4096 == n / 262144 * 262144 + n / 4096 % 64 * 4096
  {
    assert n / 4096 == n / 64 / 64 && n / 262144 == n / 4096 / 64;
  }

  /** The encoding of a code point is read back as that code point, and none is shorter. */
  lemma EncodesCode(code: nat)
    requires IsScalar(code)
    ensures |EncodeRune(code)| == SizeOf(code) && CodeOf(EncodeRune(code)) == code
  {
    Digits64(code);
  }

  /** Every character of a well-formed text is the encoding of one code point. */
  lemma RuneIsEncoding(s: seq<Byte>)
    requires s != [] && Utf8Front(s).Rune?
    ensures var c := s[..Utf8Front(s).size];
            |c| <= 4 && 0 <= CodeOf(c) && IsScalar(CodeOf(c)) && SizeOf(CodeOf(c)) == |c| && EncodeRune(CodeOf(c)) == c
  {
    var c := s[..Utf8Front(s).size];
    assert Utf8Front(c) == Rune(|c|);
    if |c| == 2 { TwoAreEncoding(c); }
    if |c| == 3 { ThreeAreEncoding(c); }
    if |c| == 4 { FourAreEncoding(c); }
  }

  lemma TwoAreEncoding(c: seq<Byte>)
    requires |c| == 2 && Utf8Front(c) == Rune(2)
    ensures 0x80 <= CodeOf(c) < 0x800 && EncodeRune(CodeOf(c)) == c
  {
    Two(c[0] - 0xC0, c[1] - 0x80);
  }

  lemma ThreeAreEncoding(c: seq<Byte>)
    requires |c| == 3 && Utf8Front(c) == Rune(3)
    ensures 0x800 <= CodeOf(c) < 0x10000 && IsScalar(CodeOf(c)) && EncodeRune(CodeOf(c)) == c
  {
    Three(c[0] - 0xE0, c[1] - 0x80, c[2] - 0x80);
  }

  lemma FourAreEncoding(c: seq<Byte>)
    requires |c| == 4 && Utf8Front(c) == Rune(4)
    ensures 0x10000 <= CodeOf(c) < 0x110000 && EncodeRune(CodeOf(c)) == c
  {
    Four(c[0] - 0xF0, c[1] - 0x80, c[2] - 0x80, c[3] - 0x80);
  }

  lemma Two(a: nat, b: nat)
    requires b < 64
    ensures (a * 64 + b) / 64 == a && (a * 64 + b) % 64 == b
  {}

  lemma Three(a: nat, b: nat, c: nat)
    requires b < 64 && c < 64
    ensures var n := a * 4096 + b * 64 + c; n / 4096 == a && n / 64 % 64 == b && n % 64 == c
  {
    var n := a * 4096 + b * 64 + c;
    assert n == (a * 64 + b) * 64 + c;
    Two(a * 64 + b, c);
    Two(a, b);
    assert n / 4096 == n / 64 / 64;
  }

  lemma Four(a: nat, b: nat, c: nat, d: nat)
    requires b < 64 && c < 64 && d < 64
    ensures var n := a * 262144 + b * 4096 + c * 64 + d;
            n / 262144 == a && n / 4096 % 64 == b && n / 64 % 64 == c && n % 64 == d
  {
    var n := a * 262144 + b * 4096 + c * 64 + d;
    assert n == (a * 4096 + b * 64 + c) * 64 + d;
    Two(a * 4096 + b * 64 + c, d);
    Three(a, b, c);
    assert n / 262144 == n / 64 / 4096 && n / 4096 == n / 64 / 64;
  }

  /** Bytes are an unfinished character exactly when more bytes can complete one. */
  lemma IncompleteMeans(s: seq<Byte>)
    requires s != []
    ensures Utf8Front(s).Incomplete? <==> exists q :: Utf8Front(s + q).Rune? && Utf8Front(s + q).size > |s|
  {
    if Utf8Front(s).Incomplete? {
      var q := Completion(s);
    }
    if q :| Utf8Front(s + q).Rune? && Utf8Front(s + q).size > |s| {
      if !Utf8Front(s).Incomplete? { FrontStable(s, q); }
    }
  }

  lemma Completion(s: seq<Byte>) returns (q: seq<Byte>)
    requires s != [] && Utf8Front(s).Incomplete?
    ensures Utf8Front(s + q).Rune? && Utf8Front(s + q).size > |s|
  {
    var second: Byte := if s[0] == 0xE0 then 0xA0 else if s[0] == 0xF0 then 0x90 else 0x80;
    q := (if |s| == 1 then [second] else []) + [0x80, 0x80, 0x80];
  }

  // ----- spellings -----

  /** How a character may be written: as it is, as a two-byte escape, or in hexadecimal. */
  datatype Form = Plain | Brief | Hex(upper: bool)

  function HexByte(d: nat, upper: bool): Byte
    requires d < 16
  {
    if d < 10 then '0' as int + d else if upper then 'A' as int + d - 10 else 'a' as int + d - 10
  }

  /** `\uXXXX`. */
  function HexEscape(unit: nat, upper: bool): seq<Byte>
    requires unit < 0x10000
  {
    ['\\' as int, 'u' as int, HexByte(unit / 0x1000, upper), HexByte(unit / 0x100 % 0x10, upper),
     HexByte(unit / 0x10 % 0x10, upper), HexByte(unit % 0x10, upper)]
  }

  /** The letter behind the backslash for each character that has a short escape. */
  function ShortLetter(code: nat): Option<Byte> {
    if code == '"' as int then Some('"' as int)
    else if code == '\\' as int then Some('\\' as int)
    else if code == '/' as int then Some('/' as int)
    else if code == 0x08 then Some('b' as int)
    else if code == 0x0C then Some('f' as int)
    else if code == '\n' as int then Some('n' as int)
    else if code == '\r' as int then Some('r' as int)
    else if code == '\t' as int then Some('t' as int)
    else None
  }

  /** The form is allowed for the character: quotes, backslashes and control characters
      cannot stand as they are. */
  predicate Allowed(code: nat, form: Form) {
    && IsScalar(code)
    && (form == Plain ==> code >= 0x20 && code != '"' as int && code != '\\' as int)
    && (form == Brief ==> ShortLetter(code).Some?)
  }

  function Spelling(code: nat, form: Form): (s: seq<Byte>)
    requires Allowed(code, form)
    ensures s != []
  {
    match form
    case Plain => EncodeRune(code)
    case Brief => ['\\' as int, ShortLetter(code).value]
    case Hex(upper) =>
      if code < 0x10000 then HexEscape(code, upper)
      else HexEscape(0xD800 + (code - 0x10000) / 0x400, upper) + HexEscape(0xDC00 + (code - 0x10000) % 0x400, upper)
  }

  predicate AllAllowed(codes: seq<nat>, forms: seq<Form>) {
    |codes| == |forms| && forall i :: 0 <= i < |codes| ==> Allowed(codes[i], forms[i])
  }

  /** A text, and one way to write it. */
  function Utf8(codes: seq<nat>): seq<Byte>
    requires forall i :: 0 <= i < |codes| ==> IsScalar(codes[i])
  {
    if codes == [] then [] else EncodeRune(codes[0]) + Utf8(codes[1..])
  }

  function Spelled(codes: seq<nat>, forms: seq<Form>): seq<Byte>
    requires AllAllowed(codes, forms)
  {
    if codes == [] then [] else Spelling(codes[0], forms[0]) + Spelled(codes[1..], forms[1..])
  }

  lemma HexRead(unit: nat, upper: bool, more: seq<Byte>)
    requires unit < 0x10000
    ensures EscapeCode(HexEscape(unit, upper) + more) == Some(unit)
  {
    var a, b, c, d := unit / 0x1000, unit / 0x100 % 0x10, unit / 0x10 % 0x10, unit % 0x10;
    DigitRead(a, upper);
    DigitRead(b, upper);
    DigitRead(c, upper);
    DigitRead(d, upper);
    assert unit == a * 0x1000 + b * 0x100 + c * 0x10 + d by {
      assert unit / 0x100 == unit / 0x10 / 0x10 && unit / 0x1000 == unit / 0x100 / 0x10;
    }
    var s := HexEscape(unit, upper) + more;
    assert s[0] == 92 && s[1] == 117 && s[2] == HexByte(a, upper) && s[3] == HexByte(b, upper)
           && s[4] == HexByte(c, upper) && s[5] == HexByte(d, upper);
  }

  lemma DigitRead(d: nat, upper: bool)
    requires d < 16
    ensures IsHex(HexByte(d, upper)) && HexDigit(HexByte(d, upper)) == d
  {}

  lemma ShortRead(code: nat)
    requires ShortLetter(code).Some?
    ensures code < 256 && ShortLetter(code).value != LETTER_U && ShortEscape(ShortLetter(code).value) == Some(code)
    ensures EncodeRune(code) == [code]
  {}

  lemma PlainRead(code: nat, more: seq<Byte>)
    requires Allowed(code, Plain)
    ensures FirstToken(EncodeRune(code) + more) == Some(Token(|EncodeRune(code)|, EncodeRune(code)))
    ensures Utf8Front(EncodeRune(code) + more).Rune?
  {
    var c := EncodeRune(code);
    FrontStable(c, more);
    EncodesCode(code);
    assert (c + more)[0] == c[0] && (c + more)[..|c|] == c;
  }

  lemma HexToken(code: nat, upper: bool, more: seq<Byte>)
    requires IsScalar(code)
    ensures var s := Spelling(code, Hex(upper));
            FirstToken(s + more) == Some(Token(|s|, EncodeRune(code))) && (HighAt(s + more) ==> |s| == 12)
  {
    if code < 0x10000 { UnitToken(code, upper, more); } else { PairOf(code, upper, more); }
  }

  lemma UnitToken(code: nat, upper: bool, more: seq<Byte>)
    requires IsScalar(code) && code < 0x10000
    ensures var s := HexEscape(code, upper) + more;
            FirstToken(s) == Some(Token(6, EncodeRune(code))) && !HighAt(s)
  {
    HexRead(code, upper, more);
  }

  lemma PairOf(code: nat, upper: bool, more: seq<Byte>)
    requires IsScalar(code) && code >= 0x10000
    ensures var s := Spelling(code, Hex(upper));
            |s| == 12 && FirstToken(s + more) == Some(Token(12, EncodeRune(code)))
  {
    var high, low := Halves(code);
    PairSpelling(code, upper, high, low);
    PairToken(high, low, upper, more, code);
  }

  lemma Halves(code: nat) returns (high: nat, low: nat)
    requires 0x10000 <= code < 0x110000
    ensures high == 0xD800 + (code - 0x10000) / 0x400 && low == 0xDC00 + (code - 0x10000) % 0x400
    ensures IsHigh(high) && IsLow(low) && code == 0x10000 + (high - 0xD800) * 0x400 + (low - 0xDC00)
  {
    high, low := 0xD800 + (code - 0x10000) / 0x400, 0xDC00 + (code - 0x10000) % 0x400;
  }

  lemma PairSpelling(code: nat, upper: bool, high: nat, low: nat)
    requires IsScalar(code) && code >= 0x10000 && IsHigh(high) && IsLow(low)
    requires high == 0xD800 + (code - 0x10000) / 0x400 && low == 0xDC00 + (code - 0x10000) % 0x400
    ensures Spelling(code, Hex(upper)) == HexEscape(high, upper) + HexEscape(low, upper)
    ensures |Spelling(code, Hex(upper))| == 12
  {}

  lemma PairToken(high: nat, low: nat, upper: bool, more: seq<Byte>, code: nat)
    requires IsHigh(high) && IsLow(low) && code == 0x10000 + (high - 0xD800) * 0x400 + (low - 0xDC00)
    ensures FirstToken(HexEscape(high, upper) + HexEscape(low, upper) + more) == Some(Token(12, EncodeRune(code)))
  {
    var a, b := HexEscape(high, upper), HexEscape(low, upper);
    HexRead(high, upper, b + more);
    HexRead(low, upper, more);
    assert a + b + more == a + (b + more) && (a + (b + more))[6..] == b + more;
  }

  /** Every spelling of a character is one unit, and decoded to that character. */
  lemma SpellingToken(code: nat, form: Form, more: seq<Byte>)
    requires Allowed(code, form)
    ensures var (s, t) := (Spelling(code, form), Spelling(code, form) + more);
            && FirstToken(t) == Some(Token(|s|, EncodeRune(code)))
            && (t[0] == BACKSLASH || Utf8Front(t).Rune?) && (HighAt(t) ==> |s| == 12)
  {
    match form
    case Plain => PlainRead(code, more);
    case Brief => ShortRead(code);
    case Hex(upper) => HexToken(code, upper, more);
  }

  /** Whichever way a text is written, it is decoded to that text, and the stream's bites
      fall between its characters. */
  lemma {:induction false} SpelledDecodes(codes: seq<nat>, forms: seq<Form>)
    requires AllAllowed(codes, forms)
    ensures Unquote(Spelled(codes, forms)) == Some(Utf8(codes)) && Tiled(Spelled(codes, forms))
    decreases |codes|
  {
    if codes != [] {
      var s, more := Spelling(codes[0], forms[0]), Spelled(codes[1..], forms[1..]);
      SpellingToken(codes[0], forms[0], more);
      SpelledDecodes(codes[1..], forms[1..]);
      FirstOfMore(s, more, EncodeRune(codes[0]));
    }
  }

  lemma FirstOfMore(s: seq<Byte>, more: seq<Byte>, text: seq<Byte>)
    requires s != [] && FirstToken(s + more) == Some(Token(|s|, text)) && Unquote(more).Some? && Tiled(more)
    requires ((s + more)[0] == BACKSLASH || Utf8Front(s + more).Rune?) && (HighAt(s + more) ==> |s| == 12)
    ensures Unquote(s + more) == Some(text + Unquote(more).value) && Tiled(s + more)
  {
    assert (s + more)[|s|..] == more;
    assert Boundary(s + more, |s|) by { assert Boundary(more, 0); }
  }

  /** However the arguments of a call are cut, and however its answer is written in them,
      the stream ends with that answer. */
  lemma StreamedSpelling(ok: HeaderCheck, head: seq<Byte>, space: seq<Byte>, codes: seq<nat>, forms: seq<Form>,
                         rest: seq<Byte>, fragments: seq<seq<Byte>>)
    requires (':' as int) !in head && ok(Transcode(head) + [':' as int]) && AllAllowed(codes, forms)
    requires forall c :: c in space ==> c == ' ' as int || c == '\t' as int || c == '\n' as int || c == '\r' as int
    requires Concat(fragments)
             == head + [':' as int] + (space + ['"' as int] + (Spelled(codes, forms) + (['"' as int] + rest)))
    ensures var fed := Fed(ok, START, fragments);
            !fed.failed && fed.state.done && fed.state.out == Utf8(codes) && fed.state.pending == ['"' as int] + rest
  {
    SpelledDecodes(codes, forms);
    StreamedAnswer(ok, head, space, Spelled(codes, forms), rest, fragments);
  }

  /** The header is collected byte by byte as characters. */
  lemma HeaderByte(c: Byte)
    ensures StringOf(c) == EncodeRune(c) && (c < 0x80 ==> StringOf(c) == [c])
  {}

  /** Every well-formed text is a sequence of code points. */
  lemma {:induction false} TextIsCodes(t: seq<Byte>) returns (codes: seq<nat>)
    requires ValidUtf8(t)
    ensures (forall i :: 0 <= i < |codes| ==> IsScalar(codes[i])) && Utf8(codes) == t
    decreases |t|
  {
    codes := [];
    if t != [] {
      var n := Utf8Front(t).size;
      RuneIsEncoding(t);
      var more := TextIsCodes(t[n..]);
      codes := [CodeOf(t[..n])] + more;
      assert codes[1..] == more && t == t[..n] + t[n..];
    }
  }

  // ----- nothing else is an escape -----

  /** The value of a hexadecimal digit, read off its character. */
  predicate DigitIs(b: Byte, d: nat) {
    || ('0' as int <= b <= '9' as int && d == b - '0' as int)
    || ('A' as int <= b <= 'F' as int && d == b - 'A' as int + 10)
    || ('a' as int <= b <= 'f' as int && d == b - 'a' as int + 10)
  }

  ghost predicate UnitIs(s: seq<Byte>, unit: nat) {
    && |s| >= 6 && s[0] == '\\' as int && s[1] == 'u' as int
    && exists a: nat, b: nat, c: nat, d: nat :: UnitDigits(s, a, b, c, d) && unit == a * 4096 + b * 256 + c * 16 + d
  }

  predicate UnitDigits(s: seq<Byte>, a: nat, b: nat, c: nat, d: nat)
    requires |s| >= 6
  {
    a < 16 && b < 16 && c < 16 && d < 16 && DigitIs(s[2], a) && DigitIs(s[3], b) && DigitIs(s[4], c) && DigitIs(s[5], d)
  }

  lemma UnitRead(s: seq<Byte>, unit: nat)
    ensures EscapeCode(s) == Some(unit) <==> UnitIs(s, unit)
  {
    if EscapeCode(s).Some? { CodeIsUnit(s); }
    if UnitIs(s, unit) { UnitIsCode(s, unit); }
  }

  lemma CodeIsUnit(s: seq<Byte>)
    requires EscapeCode(s).Some?
    ensures UnitIs(s, EscapeCode(s).value)
  {
    assert UnitDigits(s, HexDigit(s[2]), HexDigit(s[3]), HexDigit(s[4]), HexDigit(s[5]));
  }

  lemma UnitIsCode(s: seq<Byte>, unit: nat)
    requires UnitIs(s, unit)
    ensures EscapeCode(s) == Some(unit)
  {
    var a: nat, b: nat, c: nat, d: nat :| UnitDigits(s, a, b, c, d) && unit == a * 4096 + b * 256 + c * 16 + d;
    DigitsRead(s, a, b, c, d);
  }

  lemma DigitsRead(s: seq<Byte>, a: nat, b: nat, c: nat, d: nat)
    requires |s| >= 6 && UnitDigits(s, a, b, c, d)
    ensures IsHex(s[2]) && IsHex(s[3]) && IsHex(s[4]) && IsHex(s[5])
    ensures HexDigit(s[2]) == a && HexDigit(s[3]) == b && HexDigit(s[4]) == c && HexDigit(s[5]) == d
  {}

  /** A two-byte escape is one of the table and nothing else. */
  lemma BriefMeans(s: seq<Byte>, t: Token)
    requires |s| >= 2 && s[0] == '\\' as int && s[1] != 'u' as int
    ensures FirstToken(s) == Some(t)
            <==> t.size == 2 && exists code: Byte :: ShortLetter(code) == Some(s[1]) && t.text == [code]
  {
    var b := ShortEscape(s[1]);
    if b.Some? { assert ShortLetter(b.value) == Some(s[1]); }
  }

  /** Two units of a surrogate pair are one character beyond U+FFFF. */
  lemma PairMeans(s: seq<Byte>, high: nat, low: nat)
    requires UnitIs(s, high) && 0xD800 <= high < 0xDC00 && UnitIs(s[6..], low) && 0xDC00 <= low < 0xE000
    ensures FirstToken(s) == Some(Token(12, EncodeRune(0x10000 + (high - 0xD800) * 0x400 + (low - 0xDC00))))
  {
    UnitRead(s, high);
    UnitRead(s[6..], low);
  }

  /** A surrogate without its partner becomes the replacement character. */
  lemma LoneMeans(s: seq<Byte>, unit: nat)
    requires UnitIs(s, unit) && 0xD800 <= unit < 0xE000
    requires unit < 0xDC00 ==> forall low: nat :: 0xDC00 <= low < 0xE000 ==> !UnitIs(s[6..], low)
    ensures FirstToken(s) == Some(Token(6, EncodeRune(0xFFFD)))
  {
    UnitRead(s, unit);
    if unit < 0xDC00 && LowAt(s[6..]) { UnitRead(s[6..], EscapeCode(s[6..]).value); }
  }

  /** Any other unit is its own character, and a `\u` without a unit is no escape. */
  lemma UnitMeans(s: seq<Byte>, unit: nat)
    requires UnitIs(s, unit) && !(0xD800 <= unit < 0xE000)
    ensures unit < 0x10000 && FirstToken(s) == Some(Token(6, EncodeRune(unit)))
  {
    UnitRead(s, unit);
  }

  lemma NoEscape(s: seq<Byte>)
    requires s != [] && s[0] == '\\' as int
    requires |s| < 2 || (s[1] == 'u' as int && forall unit: nat :: !UnitIs(s, unit))
    ensures FirstToken(s).None?
  {
    if EscapeCode(s).Some? { UnitRead(s, EscapeCode(s).value); }
  }

  // ----- when the stream waits, and what it refuses -----

  /** A `\u` has come, and it or the second half of its pair is not complete. */
  ghost predicate UnitUnfinished(p: seq<Byte>) {
    && |p| >= 2 && p[1] == 'u' as int
    && (|p| < 6 || (|p| < 12 && exists unit: nat :: UnitIs(p, unit) && 0xD800 <= unit < 0xDC00))
  }

  /** Inside the string the stream waits exactly for the rest of an escape or of a character. */
  lemma WaitsExactly(ok: HeaderCheck, s: State)
    requires s.value && s.started && !s.done && s.pending != []
    ensures NextStep(ok, s).Wait?
            <==> if s.pending[0] == '"' as int then false
                 else if s.pending[0] == '\\' as int then |s.pending| < 2 || UnitUnfinished(s.pending)
                 else Utf8Front(s.pending).Incomplete?
  {
    var p := s.pending;
    if p[0] == '\\' as int && |p| >= 6 && p[1] == 'u' as int {
      if EscapeCode(p).Some? { CodeIsUnit(p); }
      if UnitUnfinished(p) {
        var unit: nat :| UnitIs(p, unit) && 0xD800 <= unit < 0xDC00;
        UnitIsCode(p, unit);
      }
    }
  }

  /** It refuses control characters and malformed bytes, and escapes that mean nothing. */
  lemma RefusesExactly(ok: HeaderCheck, s: State)
    requires s.value && s.started && !s.done && s.pending != []
    ensures s.pending[0] == '"' as int ==> NextStep(ok, s) == Go(s.(done := true))
    ensures s.pending[0] != '"' as int && s.pending[0] != '\\' as int ==>
              (NextStep(ok, s).Fail?
               <==> (Utf8Front(s.pending).Rune? && s.pending[0] < 0x20) || Utf8Front(s.pending).Malformed?)
    ensures |s.pending| >= 2 && s.pending[0] == '\\' as int && s.pending[1] != 'u' as int ==>
              (NextStep(ok, s).Fail? <==> forall code: Byte :: ShortLetter(code) != Some(s.pending[1]))
  {
    var p := s.pending;
    if |p| >= 2 && p[0] == '\\' as int && p[1] != 'u' as int {
      var e := p[..2];
      if FirstToken(e).Some? {
        BriefMeans(e, FirstToken(e).value);
        UnquoteOne(e, FirstToken(e).value);
      } else if code: Byte :| ShortLetter(code) == Some(p[1]) {
        BriefMeans(e, Token(2, [code]));
      }
    }
  }

  /** Before the string only white space is skipped, and the header has to be accepted. */
  lemma BeforeTheString(ok: HeaderCheck, s: State)
    requires !s.done && !s.started && s.pending != []
    ensures var (c, more) := (s.pending[0], s.pending[1..]);
            var head := s.header + EncodeRune(c);
            NextStep(ok, s)
            == if !s.value then
                 if c != ':' as int then Go(s.(header := head, pending := more))
                 else if ok(head) then Go(s.(header := head, pending := more, value := true)) else Fail
               else if c == ' ' as int || c == '\t' as int || c == '\n' as int || c == '\r' as int
               then Go(s.(pending := more))
               else if c == '"' as int then Go(s.(pending := more, started := true)) else Fail
  {
    HeaderByte(s.pending[0]);
  }
}
