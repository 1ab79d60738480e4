/** The decoder that streams the final answer out of the arguments of a `respond` call
    while they arrive. Bytes that are not a whole character or escape yet stay pending. */
module AnswerDecoder {
  import opened JsonText

  const COLON: Byte := 58

  /** Whether the header up to a colon, completed by `null}`, is an object with the one
      field `response`: the JSON library's judgement, a parameter here. */
  type HeaderCheck = seq<Byte> -> bool

  datatype State = State(
    header: seq<Byte>, pending: seq<Byte>, value: bool, started: bool, done: bool,
    out: seq<Byte>)  // everything decoded so far

  datatype Step = Wait | Fail | Go(next: State)

  /** `string(c)` of a byte: the character with that code, in UTF-8. */
  function StringOf(c: Byte): seq<Byte> { if c < 0x80 then [c] else [0xC0 + c / 64, 0x80 + c % 64] }

  predicate IsSpace(c: Byte) { c == 32 || c == 10 || c == 13 || c == 9 }

  /** How many bytes an escape needs before it is decoded. */
  datatype Window = Short | BadHex | Width(n: nat)

  function EscapeWindow(p: seq<Byte>): (w: Window)
    requires p != [] && p[0] == BACKSLASH
    ensures w.Width? ==> 2 <= w.n <= |p|
  {
    if |p| < 2 then Short
    else if p[1] != LETTER_U then Width(2)
    else if |p| < 6 then Short
    else match EscapeCode(p)
      case None => BadHex
      case Some(code) => if !IsHigh(code) then Width(6) else if |p| < 12 then Short else Width(12)
  }

  function Emit(s: State, n: nat, text: seq<Byte>): State
    requires n <= |s.pending|
  {
    s.(pending := s.pending[n..], out := s.out + text)
  }

  function StepHeader(ok: HeaderCheck, s: State): Step
    requires s.pending != []
  {
    var c := s.pending[0];
    var t := s.(header := s.header + StringOf(c), pending := s.pending[1..]);
    if c != COLON then Go(t)
    else if ok(t.header) then Go(t.(value := true))
    else Fail
  }

  function StepStart(s: State): Step
    requires s.pending != []
  {
    var c := s.pending[0];
    if IsSpace(c) then Go(s.(pending := s.pending[1..]))
    else if c == QUOTE then Go(s.(pending := s.pending[1..], started := true))
    else Fail
  }

  function StepText(s: State): Step
    requires s.pending != []
  {
    var p := s.pending;
    if p[0] == QUOTE then Go(s.(done := true))
    else if p[0] == BACKSLASH then
      match EscapeWindow(p)
      case Short => Wait
      case BadHex => Fail
      case Width(n) =>
        (match Unquote(p[..n]) case None => Fail case Some(text) => Go(Emit(s, n, text)))
    else match Utf8Front(p)
      case Incomplete => Wait
      case Malformed => Fail
      case Rune(n) => if p[0] < 0x20 then Fail else Go(Emit(s, n, p[..n]))
  }

  function NextStep(ok: HeaderCheck, s: State): (t: Step)
    requires s.pending != [] && !s.done
    ensures t.Go? ==> |t.next.pending| < |s.pending| || (t.next.pending == s.pending && t.next.done)
  {
    if !s.value then StepHeader(ok, s) else if !s.started then StepStart(s) else StepText(s)
  }

  datatype Outcome = Outcome(state: State, failed: bool)

  /** Decode until the input is used up, the string ends, a byte is missing or wrong. */
  function Run(ok: HeaderCheck, s: State): Outcome
    decreases |s.pending|, if s.done then 0 else 1
  {
    if s.pending == [] || s.done then Outcome(s, false)
    else match NextStep(ok, s)
      case Wait => Outcome(s, false)
      case Fail => Outcome(s, true)
      case Go(t) => Run(ok, t)
  }

  // ----- the decoder object -----

  class Decoder {
    var header: seq<Byte>
    var pending: seq<Byte>
    var value: bool
    var started: bool
    var done: bool

    constructor ()
      ensures Snapshot([]) == START
    {
      header, pending := [], [];
      value, started, done := false, false, false;
    }

    ghost function Snapshot(out: seq<Byte>): State
      reads this
    {
      State(header, pending, value, started, done, out)
    }

    /** `push`: the text that the fragment completes; `before` is what earlier pushes
        returned. After a failure the text of the push is dropped. */
    method Push(ok: HeaderCheck, fragment: seq<Byte>, ghost before: seq<Byte>) returns (text: seq<Byte>, failed: bool)
      modifies this
      ensures failed == Run(ok, Append(old(Snapshot(before)), fragment)).failed
      ensures !failed ==> Run(ok, Append(old(Snapshot(before)), fragment)) == Outcome(Snapshot(before + text), false)
      ensures failed ==> text == []
    {
      pending := pending + fragment;
      text, failed := [], false;
      ghost var out, goal := before, Run(ok, Snapshot(before));
      assert Snapshot(before) == Append(old(Snapshot(before)), fragment);
      while pending != [] && !done
        invariant out == before + text && goal == Run(ok, Snapshot(out))
        decreases |pending|, if done then 0 else 1
      {
        var n, piece, bad := Turn(ok, out);
        if bad { return [], true; }
        if n == 0 { return; }
        text, out := text + piece, out + piece;
      }
    }

    /** One turn of the loop, in terms of the whole run. */
    method Turn(ok: HeaderCheck, ghost out: seq<Byte>) returns (n: nat, text: seq<Byte>, failed: bool)
      requires pending != [] && !done
      modifies this
      ensures failed ==> Run(ok, old(Snapshot(out))).failed
      ensures !failed && n == 0 ==> Run(ok, old(Snapshot(out))) == Outcome(Snapshot(out), false) && text == []
      ensures !failed && n > 0 ==> Run(ok, old(Snapshot(out))) == Run(ok, Snapshot(out + text))
      ensures !failed && n > 0 ==> |pending| < old(|pending|) || (pending == old(pending) && done)
    {
      ghost var s := Snapshot(out);
      n, text, failed := Advance(ok, out);
      RunStep(ok, s);
    }

    /** One turn of the loop: how many bytes it took and their text, none when it has to wait. */
    method Advance(ok: HeaderCheck, ghost out: seq<Byte>) returns (n: nat, text: seq<Byte>, failed: bool)
      requires pending != [] && !done
      modifies this
      ensures failed == NextStep(ok, old(Snapshot(out))).Fail?
      ensures !failed && n == 0 ==>
        NextStep(ok, old(Snapshot(out))).Wait? && text == [] && Snapshot(out) == old(Snapshot(out))
      ensures !failed && n > 0 ==>
        NextStep(ok, old(Snapshot(out))) == Go(Snapshot(out + text))
        && (|pending| < old(|pending|) || (pending == old(pending) && done))
    {
      n, text, failed := 1, [], false;
      assert out + [] == out;
      if !value || !started {
        failed := Prelude(ok, out);
      } else if pending[0] == QUOTE {
        done := true;
      } else {
        n, text, failed := Unit(out);
        pending := pending[n..];
        assert out + text == out + text + [];
      }
    }

    /** One byte before the content: of the header, or up to the opening quote. */
    method Prelude(ok: HeaderCheck, ghost out: seq<Byte>) returns (failed: bool)
      requires pending != [] && !done && (!value || !started)
      modifies this
      ensures failed == NextStep(ok, old(Snapshot(out))).Fail?
      ensures !failed ==> NextStep(ok, old(Snapshot(out))) == Go(Snapshot(out))
      ensures |pending| < old(|pending|)
    {
      var c := pending[0];
      pending := pending[1..];
      if !value {
        header := header + StringOf(c);
        if c == COLON {
          if !ok(header) { return true; }
          value := true;
        }
      } else if !IsSpace(c) {
        if c != QUOTE { return true; }
        started := true;
      }
      return false;
    }

    /** The next character or escape: its length and text, length 0 when it has to wait. */
    method Unit(ghost out: seq<Byte>) returns (n: nat, text: seq<Byte>, bad: bool)
      requires pending != [] && pending[0] != QUOTE
      ensures n <= |pending| && (bad ==> n == 0)
      ensures bad == StepText(Snapshot(out)).Fail?
      ensures !bad && n == 0 ==> StepText(Snapshot(out)).Wait? && text == []
      ensures !bad && n > 0 ==> StepText(Snapshot(out)) == Go(Emit(Snapshot(out), n, text))
    {
      n, text, bad := 0, [], false;
      if pending[0] == BACKSLASH {
        match EscapeWindow(pending) {
          case Short =>
          case BadHex => bad := true;
          case Width(width) =>
            match Unquote(pending[..width]) {
              case None => bad := true;
              case Some(decoded) =>
                n, text := width, decoded;
            }
        }
      } else {
        match Utf8Front(pending) {
          case Incomplete =>
          case Malformed => bad := true;
          case Rune(size) =>
            if pending[0] < 0x20 {
              bad := true;
            } else {
              n, text := size, pending[..size];
            }
        }
      }
    }
  }

  const START := State([], [], false, false, false, [])

  lemma RunStep(ok: HeaderCheck, s: State)
    requires s.pending != [] && !s.done
    ensures match NextStep(ok, s)
            case Wait => Run(ok, s) == Outcome(s, false)
            case Fail => Run(ok, s) == Outcome(s, true)
            case Go(t) => Run(ok, s) == Run(ok, t)
  {}

  // ----- whole characters only -----

  lemma StepEmitsRunes(ok: HeaderCheck, s: State)
    requires s.pending != [] && !s.done && NextStep(ok, s).Go?
    ensures var t := NextStep(ok, s).next;
            s.out <= t.out && ValidUtf8(t.out[|s.out|..])
  {
    var p, t := s.pending, NextStep(ok, s).next;
    assert s.out[|s.out|..] == [];
    if s.value && s.started && p[0] != QUOTE {
      var text := t.out[|s.out|..];
      if p[0] == BACKSLASH {
        var n := EscapeWindow(p).n;
        assert text == Unquote(p[..n]).value;
        UnquoteValid(p[..n]);
      } else {
        FrontPrefix(p, Utf8Front(p).size);
        assert text == p[..Utf8Front(p).size];
        OneRune(text);
      }
    }
  }

  /** What a push decodes is made of whole characters, wherever the fragments were cut. */
  lemma {:induction false} RunEmitsRunes(ok: HeaderCheck, s: State)
    ensures var t := Run(ok, s).state;
            s.out <= t.out && ValidUtf8(t.out[|s.out|..])
    decreases |s.pending|, if s.done then 0 else 1
  {
    if s.pending == [] || s.done || !NextStep(ok, s).Go? {
      assert s.out[|s.out|..] == [];
    } else {
      var t := NextStep(ok, s).next;
      StepEmitsRunes(ok, s);
      RunEmitsRunes(ok, t);
      var u := Run(ok, t).state;
      ValidConcat(t.out[|s.out|..], u.out[|t.out|..]);
      Suffixes(s.out, t.out, u.out);
    }
  }

  lemma Suffixes(a: seq<Byte>, b: seq<Byte>, c: seq<Byte>)
    requires a <= b <= c
    ensures c[|a|..] == b[|a|..] + c[|b|..]
  {}

  // ----- fragmentation -----

  function Append(s: State, q: seq<Byte>): State { s.(pending := s.pending + q) }

  lemma StepStable(ok: HeaderCheck, s: State, q: seq<Byte>)
    requires s.pending != [] && !s.done
    ensures NextStep(ok, s).Fail? ==> NextStep(ok, Append(s, q)).Fail?
    ensures NextStep(ok, s).Go? ==> NextStep(ok, Append(s, q)) == Go(Append(NextStep(ok, s).next, q))
  {
    var p := s.pending;
    assert (p + q)[0] == p[0] && (p + q)[1..] == p[1..] + q;
    if s.value && s.started && p[0] != QUOTE {
      if p[0] == BACKSLASH { WindowStable(s, q); } else { CharStable(s, q); }
    }
  }

  lemma CodeKept(p: seq<Byte>, q: seq<Byte>)
    requires |p| >= 6
    ensures EscapeCode(p + q) == EscapeCode(p)
  {
    assert forall i :: 0 <= i < 6 ==> (p + q)[i] == p[i];
  }

  lemma WindowKept(p: seq<Byte>, q: seq<Byte>)
    requires p != [] && p[0] == BACKSLASH && !EscapeWindow(p).Short?
    ensures (p + q)[0] == p[0] && EscapeWindow(p + q) == EscapeWindow(p)
  {
    assert (p + q)[1] == p[1];
    if |p| >= 6 { CodeKept(p, q); }
  }

  lemma WindowStable(s: State, q: seq<Byte>)
    requires s.pending != [] && s.pending[0] == BACKSLASH
    ensures StepText(s).Fail? ==> StepText(Append(s, q)).Fail?
    ensures StepText(s).Go? ==> StepText(Append(s, q)) == Go(Append(StepText(s).next, q))
  {
    var p := s.pending;
    if !EscapeWindow(p).Short? {
      WindowKept(p, q);
      if EscapeWindow(p).Width? {
        var n := EscapeWindow(p).n;
        assert (p + q)[..n] == p[..n] && (p + q)[n..] == p[n..] + q;
      }
    }
  }

  lemma CharStable(s: State, q: seq<Byte>)
    requires s.pending != [] && s.pending[0] != BACKSLASH && s.pending[0] != QUOTE
    ensures StepText(s).Fail? ==> StepText(Append(s, q)).Fail?
    ensures StepText(s).Go? ==> StepText(Append(s, q)) == Go(Append(StepText(s).next, q))
  {
    var p := s.pending;
    if !Utf8Front(p).Incomplete? {
      FrontStable(p, q);
      if Utf8Front(p).Rune? {
        var n := Utf8Front(p).size;
        assert (p + q)[..n] == p[..n] && (p + q)[n..] == p[n..] + q;
      }
    }
  }

  lemma {:induction false} RunSplit(ok: HeaderCheck, s: State, q: seq<Byte>)
    ensures var o := Run(ok, s);
            Run(ok, Append(s, q))
            == if o.failed then Outcome(Append(o.state, q), true) else Run(ok, Append(o.state, q))
    decreases |s.pending|, if s.done then 0 else 1
  {
    if s.pending != [] && !s.done {
      StepStable(ok, s, q);
      if NextStep(ok, s).Go? {
        RunStep(ok, Append(s, q));
        RunSplit(ok, NextStep(ok, s).next, q);
      }
    }
  }

  function Concat(fragments: seq<seq<Byte>>): seq<Byte> {
    if fragments == [] then [] else fragments[0] + Concat(fragments[1..])
  }

  /** Pushing fragments one by one, stopping at the first failure. */
  function Fed(ok: HeaderCheck, s: State, fragments: seq<seq<Byte>>): Outcome
    decreases |fragments|
  {
    if fragments == [] then Outcome(s, false)
    else
      var o := Run(ok, Append(s, fragments[0]));
      if o.failed then o else Fed(ok, o.state, fragments[1..])
  }

  /** Fragmentation does not matter: every way of cutting the arguments fails or succeeds
      alike, decodes the same text, and on success leaves the same decoder behind. */
  lemma {:induction false} FragmentInvariance(ok: HeaderCheck, s: State, fragments: seq<seq<Byte>>)
    requires Run(ok, s) == Outcome(s, false)
    ensures var (fed, whole) := (Fed(ok, s, fragments), Run(ok, Append(s, Concat(fragments))));
            && fed.failed == whole.failed && fed.state.out == whole.state.out
            && (!fed.failed ==> fed == whole)
    decreases |fragments|
  {
    if fragments == [] {
      assert Append(s, []) == s;
    } else {
      var f, more := fragments[0], Concat(fragments[1..]);
      var o := Run(ok, Append(s, f));
      assert Append(Append(s, f), more) == Append(s, Concat(fragments));
      RunSplit(ok, Append(s, f), more);
      if !o.failed {
        RunIdle(ok, Append(s, f));
        FragmentInvariance(ok, o.state, fragments[1..]);
      }
    }
  }

  lemma {:induction false} RunIdle(ok: HeaderCheck, s: State)
    requires !Run(ok, s).failed
    ensures Run(ok, Run(ok, s).state) == Run(ok, s)
    decreases |s.pending|, if s.done then 0 else 1
  {
    if s.pending != [] && !s.done && NextStep(ok, s).Go? { RunIdle(ok, NextStep(ok, s).next); }
  }

  /** The caller's loop: sends what each push completes, gives up at the first failure. */
  method Feed(ok: HeaderCheck, fragments: seq<seq<Byte>>) returns (sent: seq<Byte>, done: bool, failed: bool)
    ensures var o := Fed(ok, START, fragments);
            failed == o.failed && (!failed ==> sent == o.state.out && done == o.state.done)
  {
    var decoder := new Decoder();
    sent, failed := [], false;
    assert fragments[0..] == fragments;
    for i := 0 to |fragments|
      invariant fresh(decoder)
      invariant Fed(ok, START, fragments) == Fed(ok, decoder.Snapshot(sent), fragments[i..])
    {
      assert fragments[i..][0] == fragments[i] && fragments[i..][1..] == fragments[i+1..];
      var text, bad := decoder.Push(ok, fragments[i], sent);
      if bad { return sent, false, true; }
      sent := sent + text;
    }
    assert fragments[|fragments|..] == [];
    done := decoder.done;
  }
}
