/** What a well-paired history, a complete tool group and a plain turn look like, message by
    message, without walking through the history. */
module HistoryShape {
  import opened ToolHistory

  predicate Calling(m: Message) { m.Message? && m.role == Assistant && |m.calls| > 0 }

  predicate Answering(m: Message) { m.Message? && m.role == Tool }

  /** The results answer the calls one to one. */
  ghost predicate AnswerEach(calls: seq<Call>, results: seq<Message>) {
    && |results| == |calls|
    && (forall k :: 0 <= k < |results| ==>
          Answering(results[k]) && exists c :: c in calls && c.id == results[k].answers)
    && (forall j, k :: 0 <= j < k < |results| ==> results[j].answers != results[k].answers)
  }

  /** The messages right behind the one at `s` answer its calls. */
  ghost predicate AnsweredBehind(ms: seq<Message>, s: nat) {
    && s < |ms| && ms[s].Message? && s + |ms[s].calls| < |ms|
    && AnswerEach(ms[s].calls, ms[s+1..s+1+|ms[s].calls|])
  }

  /** The result at `i` stands among the answers to some call. */
  ghost predicate HasCaller(ms: seq<Message>, i: nat) {
    i < |ms| && exists s: nat :: s < i && Calling(ms[s]) && i <= s + |ms[s].calls|
  }

  /** Every call is answered right behind it, and nothing else is an answer. */
  ghost predicate Paired(ms: seq<Message>) {
    && (forall s: nat :: s < |ms| && Calling(ms[s]) ==> AnsweredBehind(ms, s))
    && (forall i: nat :: i < |ms| && Answering(ms[i]) ==> HasCaller(ms, i))
  }

  lemma AnswersAre(calls: seq<Call>, results: seq<Message>)
    ensures Answered(calls, results) <==> AnswerEach(calls, results)
  {
    if Answered(calls, results) { EachAnswered(calls, results); }
    if AnswerEach(calls, results) { AllAnswered(calls, results); }
  }

  lemma EachAnswered(calls: seq<Call>, results: seq<Message>)
    requires Answered(calls, results)
    ensures AnswerEach(calls, results)
  {
    forall k | 0 <= k < |results|
      ensures Answering(results[k]) && exists c :: c in calls && c.id == results[k].answers
    {
      assert IsResult(results[k]);
      IdOfCall(calls, results[k].answers);
    }
  }

  lemma AllAnswered(calls: seq<Call>, results: seq<Message>)
    requires AnswerEach(calls, results)
    ensures Answered(calls, results)
  {
    forall k | 0 <= k < |results| ensures IsResult(results[k]) && results[k].answers in ToolHistory.Ids(calls) {
      assert Answering(results[k]);
      IdOfCall(calls, results[k].answers);
    }
  }

  lemma IdOfCall(calls: seq<Call>, id: string)
    ensures id in ToolHistory.Ids(calls) <==> exists c :: c in calls && c.id == id
  {
    if id in ToolHistory.Ids(calls) {
      var k :| 0 <= k < |calls| && calls[k].id == id;
      assert calls[k] in calls;
    }
    if c :| c in calls && c.id == id { var k :| 0 <= k < |calls| && calls[k] == c; }
  }

  lemma Shifted(ms: seq<Message>, n: nat, s: nat)
    requires n + s < |ms|
    ensures AnsweredBehind(ms[n..], s) <==> AnsweredBehind(ms, n + s)
  {
    if ms[n+s].Message? && n + s + |ms[n+s].calls| < |ms| {
      var end := s + 1 + |ms[n+s].calls|;
      assert ms[n..][s+1..end] == ms[n+s+1..n+end];
    }
  }

  /** The first message with its answers. */
  ghost predicate FirstPart(ms: seq<Message>, n: nat) {
    && ms != [] && n == UnitSize(ms[0]) <= |ms| && !Answering(ms[0]) && (Calling(ms[0]) ==> AnsweredBehind(ms, 0))
  }

  lemma AnswersInFirst(ms: seq<Message>, n: nat)
    requires FirstPart(ms, n)
    ensures forall k :: 0 < k < n ==> Answering(ms[k])
  {
    forall k | 0 < k < n ensures Answering(ms[k]) { assert ms[1..1+|ms[0].calls|][k-1] == ms[k]; }
  }

  lemma RestPaired(ms: seq<Message>, n: nat)
    requires FirstPart(ms, n) && Paired(ms)
    ensures Paired(ms[n..])
  {
    var q := ms[n..];
    AnswersInFirst(ms, n);
    forall s: nat | s < |q| && Calling(q[s]) ensures AnsweredBehind(q, s) {
      assert Calling(ms[n+s]);
      Shifted(ms, n, s);
    }
    forall i: nat | i < |q| && Answering(q[i]) ensures HasCaller(q, i) { CallerInRest(ms, n, i); }
  }

  lemma CallerInRest(ms: seq<Message>, n: nat, i: nat)
    requires FirstPart(ms, n) && Paired(ms) && i < |ms[n..]| && Answering(ms[n..][i])
    ensures HasCaller(ms[n..], i)
  {
    AnswersInFirst(ms, n);
    assert Answering(ms[n+i]) && HasCaller(ms, n + i);
    var s: nat :| s < n + i && Calling(ms[s]) && n + i <= s + |ms[s].calls|;
    assert s >= n;
    assert ms[n..][s-n] == ms[s];
  }

  lemma AllPaired(ms: seq<Message>, n: nat)
    requires FirstPart(ms, n) && Paired(ms[n..])
    ensures Paired(ms)
  {
    var q := ms[n..];
    AnswersInFirst(ms, n);
    forall s: nat | s < |ms| && Calling(ms[s]) ensures AnsweredBehind(ms, s) {
      if s >= n {
        assert Calling(q[s-n]);
        Shifted(ms, n, s - n);
      }
    }
    forall i: nat | i < |ms| && Answering(ms[i]) ensures HasCaller(ms, i) {
      if i >= n { CallerBefore(ms, n, i); } else { assert Calling(ms[0]) && i <= 0 + |ms[0].calls|; }
    }
  }

  lemma CallerBefore(ms: seq<Message>, n: nat, i: nat)
    requires n <= i < |ms| && Paired(ms[n..]) && Answering(ms[i])
    ensures HasCaller(ms, i)
  {
    var q := ms[n..];
    assert Answering(q[i-n]) && HasCaller(q, i - n);
    var s: nat :| s < i - n && Calling(q[s]) && i - n <= s + |q[s].calls|;
    assert Calling(ms[n+s]) && ms[n+s] == q[s];
  }

  lemma FirstOk(ms: seq<Message>)
    requires ms != [] && Paired(ms)
    ensures FirstPart(ms, UnitSize(ms[0]))
  {
    assert !HasCaller(ms, 0);
  }

  /** The walk accepts exactly the paired histories. */
  lemma {:induction false} PairedMeans(ms: seq<Message>)
    ensures WellPaired(ms) <==> Paired(ms)
    decreases |ms|
  {
    if ms != [] {
      var n := UnitSize(ms[0]);
      if Calling(ms[0]) && n <= |ms| { AnswersAre(ms[0].calls, ms[1..n]); }
      if WellPaired(ms) {
        PairedMeans(ms[n..]);
        AllPaired(ms, n);
      }
      if Paired(ms) {
        FirstOk(ms);
        RestPaired(ms, n);
        PairedMeans(ms[n..]);
      }
    }
  }

  /** A complete group: an assistant's calls, each with its own id and none of a guarded tool, and
      right behind them their results, none of which records evidence. */
  lemma GroupMeans(r: Rules, ms: seq<Message>, g: Group)
    ensures IsToolGroup(r, ms, g)
            <==> g.start < |ms| && Calling(ms[g.start]) && g.end == g.start + 1 + |ms[g.start].calls|
                 && AnsweredBehind(ms, g.start)
                 && (forall c :: c in ms[g.start].calls ==> c.id != "" && !r.guarded(c.name))
                 && (forall j, k :: 0 <= j < k < |ms[g.start].calls| ==>
                       ms[g.start].calls[j].id != ms[g.start].calls[k].id)
                 && (forall k :: g.start < k < g.end ==> ms[k].Message? && !r.evidence(ms[k].content))
  {
    if IsToolGroup(r, ms, g) { GroupIsUnit(r, ms, g); }
    if g.start < |ms| && Calling(ms[g.start]) && g.start + |ms[g.start].calls| < |ms| {
      AnswersAre(ms[g.start].calls, ms[g.start+1..g.start+1+|ms[g.start].calls|]);
    }
  }

  /** A plain turn before the latest question: a question that is neither a summary nor optional
      context, an answer without calls and evidence, and another question behind it. */
  lemma OldTurnMeans(r: Rules, ms: seq<Message>, g: Group)
    ensures IsOldTurn(r, ms, LatestUser(r, ms, false), g)
            <==> g.end == g.start + 2 && g.end < |ms|
                 && ms[g.start].Message? && ms[g.start].role == User && ms[g.start].material == ""
                 && !(r.summaryPrefix <= ms[g.start].content)
                 && ms[g.start+1].Message? && ms[g.start+1].role == Assistant && ms[g.start+1].calls == []
                 && !r.evidence(ms[g.start+1].content)
                 && ms[g.end].Message? && ms[g.end].role == User
                 && exists q :: g.end <= q < |ms| && ms[q].Message? && ms[q].role == User
                      && !(r.summaryPrefix <= ms[q].content)
  {
    LatestBehind(r, ms, g.end);
  }

  lemma LatestBehind(r: Rules, ms: seq<Message>, e: nat)
    ensures e <= LatestUser(r, ms, false)
            <==> exists q :: e <= q < |ms| && ms[q].Message? && ms[q].role == User
                             && !(r.summaryPrefix <= ms[q].content)
  {
    if q :| e <= q < |ms| && ms[q].Message? && ms[q].role == User && !(r.summaryPrefix <= ms[q].content) {
      assert Asks(r, ms[q], false);
    }
  }
}
