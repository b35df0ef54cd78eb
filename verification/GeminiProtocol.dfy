/**
 What the transcript of GeminiTranscript promises for every message list: complete
 answers right behind their calls, no other message lost, and nothing lost at all
 when the calls are answered in order.
 */
module GeminiProtocol {
  import opened Basics
  import opened GeminiTranscript

  // ---------------------------------------------------------------------
  // The call/response protocol
  // ---------------------------------------------------------------------

  /** A response turn; its first part tells, as no opening turn holds a response anywhere. */
  predicate IsResponse(t: Turn) { t.parts != [] && t.parts[0].FunctionResponse? }

  /** The message's own name, or else the one remembered for its call. */
  predicate IsNameFor(name: string, m: Message, names: Names) {
    name != "" && (m.name != "" ==> name == m.name)
    && (m.name == "" ==> m.toolCallId in names && name == names[m.toolCallId])
  }

  /** Some tool message among the replies carries this very answer. */
  ghost predicate AnsweredBy(p: Part, replies: seq<Message>, names: Names) {
    p.FunctionResponse? &&
    exists m <- replies :: m.role == "tool" && p.id == m.toolCallId && p.response == m.content
                           && IsNameFor(p.name, m, names)
  }

  /** The names remembered once the messages have passed. */
  function NamesAfter(ms: seq<Message>, names: Names): Names {
    if ms == [] then names else OpenedNames(ms[|ms|-1], NamesAfter(ms[..|ms|-1], names))
  }

  lemma {:induction false} NamesFromTheFront(ms: seq<Message>, names: Names)
    requires ms != []
    ensures NamesAfter(ms, names) == NamesAfter(ms[1..], OpenedNames(ms[0], names))
  {
    var n := |ms| - 1;
    if n == 0 {
      assert ms[..0] == [] && ms[1..] == [];
    } else {
      NamesFromTheFront(ms[..n], names);
      assert ms[..n][1..] == ms[1..][..n-1];
    }
  }

  lemma {:induction false} AttachedNameNothing(run: seq<Message>, more: seq<Message>, names: Names)
    requires forall m <- run :: Attached(m)
    ensures NamesAfter(run + more, names) == NamesAfter(more, names)
  {
    if run == [] {
      assert run + more == more;
    } else {
      assert run[0] in run && forall m <- run[1..] :: m in run;
      assert (run + more)[1..] == run[1..] + more;
      NamesFromTheFront(run + more, names);
      AttachedNameNothing(run[1..], more, names);
    }
  }

  /** Turn t answers all calls collected from the opener, in order; before is the turn the opener opened. */
  ghost predicate AnswersOpener(before: Turn, t: Turn, opener: Message, replies: seq<Message>, names: Names) {
    opener.role == "assistant" && before == OpeningTurn(opener) && t.role == "user"
    && (forall p <- t.parts :: AnsweredBy(p, replies, names))
    && PartIds(t.parts) == CollectedIds(opener.toolCalls)
    && Distinct(CollectedIds(opener.toolCalls))
  }

  lemma {:induction false} OpeningTurnIsNoResponse(m: Message)
    ensures forall p <- OpeningTurn(m).parts :: !p.FunctionResponse?
    ensures !IsResponse(OpeningTurn(m))
  {
    CallPartsAreCalls(m.toolCalls);
  }

  /** What a response turn of the reference amounts to. */
  lemma {:induction false} ResponseTurnAnswers(opener: Message, replies: seq<Message>, names: Names, t: Turn)
    requires [t] == ResponseTurn(OpenedIds(opener), replies, names)
    ensures AnswersOpener(OpeningTurn(opener), t, opener, replies, names)
  {
    var accepted := AcceptedReplies(OpenedIds(opener), replies, names);
    AcceptedCovers(OpenedIds(opener), replies, names);
    assert t == [t][0] == Turn("user", ReplyParts(accepted, names));
    forall p | p in t.parts ensures AnsweredBy(p, replies, names) {
      var i :| 0 <= i < |t.parts| && t.parts[i] == p;
      assert accepted[i] in accepted && accepted[i] in replies;
      assert IsNameFor(p.name, accepted[i], names);
    }
    assert PartIds(t.parts) == ReplyIds(accepted);
  }

  function Unanswering(turns: seq<Turn>): seq<Turn> {
    if turns == [] then []
    else if IsResponse(turns[0]) then Unanswering(turns[1..])
    else [turns[0]] + Unanswering(turns[1..])
  }

  function OpeningTurns(ms: seq<Message>): seq<Turn> {
    if ms == [] then []
    else (if Attached(ms[0]) then [] else [OpeningTurn(ms[0])]) + OpeningTurns(ms[1..])
  }

  lemma {:induction false} RunOpensNothing(ms: seq<Message>)
    ensures OpeningTurns(ms) == OpeningTurns(ms[RunLength(ms)..])
  {
    if ms != [] && Attached(ms[0]) {
      RunOpensNothing(ms[1..]);
      assert ms[1..][RunLength(ms[1..])..] == ms[RunLength(ms)..];
    }
  }

  lemma {:induction false} UnansweringSplits(a: seq<Turn>, b: seq<Turn>)
    ensures Unanswering(a + b) == Unanswering(a) + Unanswering(b)
  {
    if a == [] {
      assert a + b == b;
    } else {
      assert (a + b)[0] == a[0] && (a + b)[1..] == a[1..] + b;
      UnansweringSplits(a[1..], b);
      assert [a[0]] + (Unanswering(a[1..]) + Unanswering(b)) == [a[0]] + Unanswering(a[1..]) + Unanswering(b);
    }
  }

  lemma {:induction false} AnswerIsResponse(ms: seq<Message>, names: Names)
    requires ms != []
    ensures Unanswering(Answer(ms, names)) == []
  {}

  lemma {:induction false} ExchangeOpensOnce(ms: seq<Message>, names: Names)
    requires ms != []
    ensures Unanswering([OpeningTurn(ms[0])] + Answer(ms, names)) == [OpeningTurn(ms[0])]
  {
    OpeningTurnIsNoResponse(ms[0]);
    AnswerIsResponse(ms, names);
    UnansweringSplits([OpeningTurn(ms[0])], Answer(ms, names));
    assert Unanswering([OpeningTurn(ms[0])]) == [OpeningTurn(ms[0])] + Unanswering([]);
  }

  /** Messages that open nothing, in front of others. */
  lemma {:induction false} AttachedOpenNothing(run: seq<Message>, more: seq<Message>)
    requires forall m <- run :: Attached(m)
    ensures OpeningTurns(run + more) == OpeningTurns(more)
  {
    if run == [] {
      assert run + more == more;
    } else {
      assert run[0] in run && forall m <- run[1..] :: m in run;
      assert (run + more)[1..] == run[1..] + more;
      AttachedOpenNothing(run[1..], more);
    }
  }

  /**
   Message k opened the turn in front of turn i, which answers it under the names
   remembered by then: as many turns were opened before that turn as messages before k
   open one.
   */
  ghost predicate AnswersMessage(turns: seq<Turn>, i: nat, ms: seq<Message>, names: Names, k: int)
    requires 0 < i < |turns|
  {
    0 <= k < |ms| && AnswersOpener(turns[i-1], turns[i], ms[k], Replies(ms, k), NamesAfter(ms[..k+1], names))
    && |Unanswering(turns[..i-1])| == |OpeningTurns(ms[..k])|
  }

  /** Some message's calls are what turn i answers. */
  ghost predicate HasOpener(turns: seq<Turn>, i: nat, ms: seq<Message>, names: Names)
    requires 0 < i < |turns|
  {
    exists k :: AnswersMessage(turns, i, ms, names, k)
  }

  /** What answers one message answers another that has the same place, opener, replies and names. */
  lemma {:induction false} SameAnswer(turns: seq<Turn>, i: nat, ms: seq<Message>, names: Names, k: nat,
                                      turns': seq<Turn>, i': nat, ms': seq<Message>, names': Names, k': nat)
    requires 0 < i < |turns| && 0 < i' < |turns'| && k' < |ms'| && AnswersMessage(turns, i, ms, names, k)
    requires turns[i-1] == turns'[i'-1] && turns[i] == turns'[i'] && ms[k] == ms'[k']
    requires Replies(ms, k) == Replies(ms', k') && NamesAfter(ms[..k+1], names) == NamesAfter(ms'[..k'+1], names')
    requires |Unanswering(turns'[..i'-1])| == |OpeningTurns(ms'[..k'])|
    ensures AnswersMessage(turns', i', ms', names', k')
  {}

  lemma {:induction false} RestIsSuffix(ms: seq<Message>)
    requires ms != []
    ensures Rest(ms) == ms[|ms| - |Rest(ms)|..]
  {}

  lemma {:induction false} OwnResponse(ms: seq<Message>, names: Names, turns: seq<Turn>, i: nat)
    requires ms != [] && [OpeningTurn(ms[0])] + Answer(ms, names) <= turns
    requires i <= |Answer(ms, names)| && IsResponse(turns[i])
    ensures 0 < i && HasOpener(turns, i, ms, names)
  {
    assert turns[0] == OpeningTurn(ms[0]);
    OpeningTurnIsNoResponse(ms[0]);
    assert |Answer(ms, names)| <= 1;
    assert [turns[1]] == Answer(ms, names);
    ResponseTurnAnswers(ms[0], Replies(ms, 0), OpenedNames(ms[0], names), turns[1]);
    FirstAnswer(ms, names, turns);
  }

  lemma {:induction false} FirstAnswer(ms: seq<Message>, names: Names, turns: seq<Turn>)
    requires ms != [] && |turns| > 1
    requires AnswersOpener(turns[0], turns[1], ms[0], Replies(ms, 0), OpenedNames(ms[0], names))
    ensures AnswersMessage(turns, 1, ms, names, 0)
  {
    assert turns[..0] == [] && ms[..0] == [] && ms[..1] == [ms[0]] && [ms[0]][..0] == [];
    assert NamesAfter([ms[0]], names) == OpenedNames(ms[0], NamesAfter([], names));
  }

  lemma {:induction false} RepliesOfRest(ms: seq<Message>, rest: seq<Message>, k: nat)
    requires |rest| <= |ms| && rest == ms[|ms| - |rest|..] && k < |rest|
    ensures ms[|ms| - |rest| + k] == rest[k] && Replies(ms, |ms| - |rest| + k) == Replies(rest, k)
  {
    assert rest[k+1..] == ms[|ms| - |rest| + k + 1..];
  }

  lemma {:induction false} MoveBehindAttached(turns: seq<Turn>, i: nat, ms: seq<Message>, names: Names, k: int)
    requires 0 < i < |turns| && ms != [] && Attached(ms[0]) && AnswersMessage(turns, i, ms[1..], names, k)
    ensures AnswersMessage(turns, i, ms, names, k + 1)
  {
    RepliesOfRest(ms, ms[1..], k);
    assert ms[..k+1] == [ms[0]] + ms[1..][..k] && ms[..k+2] == [ms[0]] + ms[1..][..k+1];
    AttachedNameNothing([ms[0]], ms[1..][..k+1], names);
    AttachedOpenNothing([ms[0]], ms[1..][..k]);
  }

  lemma {:induction false} MoveBehindExchange(later: seq<Turn>, j: nat, turns: seq<Turn>, i: nat, ms: seq<Message>,
                                              names: Names, k: int, moved: nat)
    requires 0 < j < |later| && 0 < i < |turns| && turns[i-1] == later[j-1] && turns[i] == later[j]
    requires |Unanswering(turns[..i-1])| == 1 + |Unanswering(later[..j-1])|
    requires ms != [] && !Attached(ms[0]) && AnswersMessage(later, j, Rest(ms), OpenedNames(ms[0], names), k)
    requires moved == |ms| - |Rest(ms)| + k
    ensures AnswersMessage(turns, i, ms, names, moved)
  {
    MovedMessage(ms, names, k, moved);
    OpenersCount(ms, k);
    SameAnswer(later, j, Rest(ms), OpenedNames(ms[0], names), k, turns, i, ms, names, moved);
  }

  lemma {:induction false} MovedMessage(ms: seq<Message>, names: Names, k: nat, moved: nat)
    requires ms != [] && !Attached(ms[0]) && k < |Rest(ms)| && moved == |ms| - |Rest(ms)| + k
    ensures moved < |ms| && ms[moved] == Rest(ms)[k] && Replies(ms, moved) == Replies(Rest(ms), k)
    ensures NamesAfter(ms[..moved+1], names) == NamesAfter(Rest(ms)[..k+1], OpenedNames(ms[0], names))
  {
    NamesUpTo(ms, names, k + 1);
    RestIsSuffix(ms);
    RepliesOfRest(ms, Rest(ms), k);
  }

  lemma {:induction false} OneOpenedBefore(turns: seq<Turn>, n: nat, i: nat)
    requires n < i <= |turns| && |Unanswering(turns[..n])| == 1
    ensures |Unanswering(turns[..i-1])| == 1 + |Unanswering(turns[n..][..i-n-1])|
  {
    assert turns[..i-1] == turns[..n] + turns[n..][..i-n-1];
    UnansweringSplits(turns[..n], turns[n..][..i-n-1]);
  }

  lemma {:induction false} ResponseHasOpener(ms: seq<Message>, names: Names, turns: seq<Turn>, i: nat)
    requires turns == Transcript(ms, names) && i < |turns| && IsResponse(turns[i])
    ensures 0 < i && HasOpener(turns, i, ms, names)
    decreases |ms|, 1
  {
    if Attached(ms[0]) {
      ResponseHasOpener(ms[1..], names, turns, i);
      var k :| AnswersMessage(turns, i, ms[1..], names, k);
      MoveBehindAttached(turns, i, ms, names, k);
    } else {
      TranscriptSplits(ms, names);
      if i <= |Answer(ms, names)| {
        OwnResponse(ms, names, turns, i);
      } else {
        ExchangeOpensOnce(ms, names);
        LaterResponse(ms, names, turns, 1 + |Answer(ms, names)|, i);
      }
    }
  }

  lemma {:induction false} LaterResponse(ms: seq<Message>, names: Names, turns: seq<Turn>, n: nat, i: nat)
    requires ms != [] && !Attached(ms[0]) && n <= i < |turns| && IsResponse(turns[i])
    requires |Unanswering(turns[..n])| == 1 && turns[n..] == Transcript(Rest(ms), OpenedNames(ms[0], names))
    ensures 0 < i && HasOpener(turns, i, ms, names)
    decreases |ms|, 0
  {
    ResponseHasOpener(Rest(ms), OpenedNames(ms[0], names), turns[n..], i - n);
    var k :| AnswersMessage(turns[n..], i - n, Rest(ms), OpenedNames(ms[0], names), k);
    OneOpenedBefore(turns, n, i);
    MoveBehindExchange(turns[n..], i - n, turns, i, ms, names, k, |ms| - |Rest(ms)| + k);
  }

  /** Up to message k of the rest, one more turn is opened than in the rest alone. */
  lemma {:induction false} OpenersCount(ms: seq<Message>, k: nat)
    requires ms != [] && !Attached(ms[0]) && k <= |Rest(ms)|
    ensures |OpeningTurns(ms[..|ms| - |Rest(ms)| + k])| == 1 + |OpeningTurns(Rest(ms)[..k])|
  {
    var n := RunLength(ms[1..]);
    var run, front := ms[1..][..n], ms[..|ms| - |Rest(ms)| + k];
    RunIsMaximal(ms[1..]);
    assert front[1..] == run + Rest(ms)[..k];
    AttachedOpenNothing(run, Rest(ms)[..k]);
  }

  /** The first message and its replies remember what the first message does. */
  lemma {:induction false} NamesUpTo(ms: seq<Message>, names: Names, k: nat)
    requires ms != [] && k <= |Rest(ms)|
    ensures NamesAfter(ms[..|ms| - |Rest(ms)| + k], names) == NamesAfter(Rest(ms)[..k], OpenedNames(ms[0], names))
  {
    var n := RunLength(ms[1..]);
    var run, front := ms[1..][..n], ms[..|ms| - |Rest(ms)| + k];
    RunIsMaximal(ms[1..]);
    assert front[1..] == run + Rest(ms)[..k];
    NamesFromTheFront(front, names);
    AttachedNameNothing(run, Rest(ms)[..k], OpenedNames(ms[0], names));
  }

  lemma {:induction false} TranscriptSplits(ms: seq<Message>, names: Names)
    requires ms != [] && !Attached(ms[0])
    ensures [OpeningTurn(ms[0])] + Answer(ms, names) <= Transcript(ms, names)
    ensures Transcript(ms, names)[1 + |Answer(ms, names)|..] == Transcript(Rest(ms), OpenedNames(ms[0], names))
  {}

  /** The protocol, over every message list: a response turn sits right behind its own opener and answers it fully. */
  lemma {:induction false} EveryResponseAnswersItsOpener(ms: seq<Message>, names: Names)
    ensures var turns := Transcript(ms, names);
            forall i :: 0 <= i < |turns| && IsResponse(turns[i]) ==> 0 < i && HasOpener(turns, i, ms, names)
  {
    var turns := Transcript(ms, names);
    forall i | 0 <= i < |turns| && IsResponse(turns[i]) ensures 0 < i && HasOpener(turns, i, ms, names) {
      ResponseHasOpener(ms, names, turns, i);
    }
  }

  /** Whatever happens to tool messages, every other message keeps its turn, in order. */
  lemma {:induction false} OpenersSurvive(ms: seq<Message>, names: Names)
    ensures Unanswering(Transcript(ms, names)) == OpeningTurns(ms)
    decreases |ms|
  {
    if ms == [] {
    } else if Attached(ms[0]) {
      OpenersSurvive(ms[1..], names);
    } else {
      var names' := OpenedNames(ms[0], names);
      var front := [OpeningTurn(ms[0])] + Answer(ms, names);
      OpenersSurvive(Rest(ms), names');
      RunOpensNothing(ms[1..]);
      ExchangeOpensOnce(ms, names);
      UnansweringSplits(front, Transcript(Rest(ms), names'));
    }
  }

  // ---------------------------------------------------------------------
  // Nothing is dropped from a well-formed conversation
  // ---------------------------------------------------------------------

  function ToolReplies(ms: seq<Message>): (r: seq<Message>)
    ensures forall m <- r :: m.role == "tool" && m in ms
  {
    if ms == [] then []
    else
      var rest := ToolReplies(ms[..|ms|-1]);
      if ms[|ms|-1].role == "tool" then rest + [ms[|ms|-1]] else rest
  }

  /** When the tool replies are all eligible and their ids distinct, all are accepted, so only order can fail. */
  lemma {:induction false} DistinctRepliesAreAccepted(ids: seq<string>, replies: seq<Message>, names: Names)
    requires forall m <- ToolReplies(replies) :: Eligible(m, ids, names)
    requires Distinct(ReplyIds(ToolReplies(replies)))
    ensures AcceptedReplies(ids, replies, names) == ToolReplies(replies)
    ensures ResponseTurn(ids, replies, names) != [] <==> ids != [] && ReplyIds(ToolReplies(replies)) == ids
  {
    if replies != [] {
      var n := |replies| - 1;
      var before, all := ToolReplies(replies[..n]), ToolReplies(replies);
      assert ReplyIds(before) == ReplyIds(all)[..|before|];
      DistinctRepliesAreAccepted(ids, replies[..n], names);
      if replies[n].role == "tool" {
        assert all[|before|] == replies[n];
        LastReplyIsFirst(ids, replies, names);
      }
    }
  }

  lemma {:induction false} LastReplyIsFirst(ids: seq<string>, replies: seq<Message>, names: Names)
    requires replies != [] && replies[|replies|-1].role == "tool"
    requires forall m <- ToolReplies(replies) :: Eligible(m, ids, names)
    requires Distinct(ReplyIds(ToolReplies(replies)))
    ensures Accepted(ids, replies, names, |replies| - 1)
  {
    var n := |replies| - 1;
    var before, all := ToolReplies(replies[..n]), ToolReplies(replies);
    assert all[|before|] == replies[n];
    forall j | 0 <= j < n && Eligible(replies[j], ids, names)
      ensures replies[j].toolCallId != replies[n].toolCallId
    {
      ToolReplyIsKept(replies[..n], j);
      var i :| 0 <= i < |before| && before[i] == replies[j];
      assert ReplyIds(all)[i] == replies[j].toolCallId && ReplyIds(all)[|before|] == replies[n].toolCallId;
    }
  }

  lemma {:induction false} ToolReplyIsKept(ms: seq<Message>, j: nat)
    requires j < |ms| && ms[j].role == "tool"
    ensures ms[j] in ToolReplies(ms)
  {
    var n := |ms| - 1;
    if j < n {
      ToolReplyIsKept(ms[..n], j);
    }
  }

  predicate ProperCalls(calls: seq<ToolCall>) {
    (forall i :: 0 <= i < |calls| ==> Active(calls[i]) && Named(calls[i]))
    && forall i, j :: 0 <= i < j < |calls| ==> calls[i].id != calls[j].id
  }

  function RepliesTo(ms: seq<Message>): seq<Message>
    requires ms != []
  {
    ToolReplies(Replies(ms, 0))
  }

  /** Every calling turn has proper calls and is answered in call order; nothing else is answered. */
  predicate AnsweredInOrder(ms: seq<Message>)
    decreases |ms|
  {
    ms == [] ||
    if Attached(ms[0]) then ms[0].role == "system" && AnsweredInOrder(ms[1..])
    else
      (ms[0].role == "assistant" ==> ProperCalls(ms[0].toolCalls))
      && ReplyIds(RepliesTo(ms)) == OpenedIds(ms[0])
      && AnsweredInOrder(Rest(ms))
  }

  function AnswerPart(reply: Message, call: ToolCall): Part
    requires Active(call)
  {
    FunctionResponse(call.id, if reply.name != "" then reply.name else call.payload.value.name, reply.content)
  }

  /** The conversation as it should be: each opener, and each caller followed by all its answers. */
  function Dialogue(ms: seq<Message>): seq<Turn>
    requires AnsweredInOrder(ms)
    decreases |ms|
  {
    if ms == [] then []
    else if Attached(ms[0]) then Dialogue(ms[1..])
    else
      [OpeningTurn(ms[0])] + Answers(ms) + Dialogue(Rest(ms))
  }

  /** All answers to the caller at the front, call by call. */
  function Answers(ms: seq<Message>): seq<Turn>
    requires ms != [] && !Attached(ms[0]) && AnsweredInOrder(ms)
  {
    var calls, replies := ms[0].toolCalls, RepliesTo(ms);
    if ms[0].role != "assistant" || calls == [] then []
    else
      ProperIds(calls);
      assert |ReplyIds(replies)| == |calls|;
      [Turn("user", seq(|calls|, i requires 0 <= i < |calls| => AnswerPart(replies[i], calls[i])))]
  }

  lemma {:induction false} ProperIds(calls: seq<ToolCall>)
    requires ProperCalls(calls)
    ensures |CollectedIds(calls)| == |calls|
    ensures forall i :: 0 <= i < |calls| ==> CollectedIds(calls)[i] == calls[i].id
    ensures Distinct(CollectedIds(calls))
  {
    if calls != [] {
      ProperIds(calls[..|calls|-1]);
    }
  }

  lemma {:induction false} ProperNames(calls: seq<ToolCall>, names: Names)
    requires ProperCalls(calls)
    ensures forall i :: 0 <= i < |calls| ==>
              calls[i].id in CollectedNames(calls, names) &&
              CollectedNames(calls, names)[calls[i].id] == calls[i].payload.value.name
  {
    if calls != [] {
      ProperNames(calls[..|calls|-1], names);
    }
  }

  lemma {:induction false} ProperRepliesAreEligible(calls: seq<ToolCall>, replies: seq<Message>, names: Names)
    requires ProperCalls(calls) && ReplyIds(replies) == CollectedIds(calls)
    requires forall m <- replies :: m.role == "tool"
    ensures |replies| == |calls| && Distinct(ReplyIds(replies))
    ensures forall m <- replies :: Eligible(m, CollectedIds(calls), CollectedNames(calls, names))
    ensures forall i :: 0 <= i < |calls| ==>
              ReplyParts(replies, CollectedNames(calls, names))[i] == AnswerPart(replies[i], calls[i])
  {
    ProperIds(calls);
    ProperNames(calls, names);
    assert |ReplyIds(replies)| == |replies|;
    forall i | 0 <= i < |calls|
      ensures Eligible(replies[i], CollectedIds(calls), CollectedNames(calls, names))
      ensures ReplyParts(replies, CollectedNames(calls, names))[i] == AnswerPart(replies[i], calls[i])
    {
      assert replies[i] in replies;
      assert ReplyIds(replies)[i] == CollectedIds(calls)[i] == calls[i].id;
      assert CollectedIds(calls)[i] in CollectedIds(calls);
    }
  }

  lemma {:induction false} ProperExchangeIsComplete(ms: seq<Message>, names: Names)
    requires ms != [] && !Attached(ms[0]) && AnsweredInOrder(ms)
    ensures Answer(ms, names) == Answers(ms)
  {
    var calls, replies := ms[0].toolCalls, RepliesTo(ms);
    if ms[0].role == "assistant" && calls != [] {
      ProperRepliesAreEligible(calls, replies, names);
      DistinctRepliesAreAccepted(CollectedIds(calls), Replies(ms, 0), CollectedNames(calls, names));
      ProperIds(calls);
      assert ReplyParts(replies, CollectedNames(calls, names))
          == seq(|calls|, i requires 0 <= i < |calls| => AnswerPart(replies[i], calls[i]));
    }
  }

  /** A conversation whose calls are all answered in order reaches Gemini whole. */
  lemma {:induction false} NothingIsDropped(ms: seq<Message>, names: Names)
    requires AnsweredInOrder(ms)
    ensures Transcript(ms, names) == Dialogue(ms)
    decreases |ms|
  {
    if ms == [] {
    } else if Attached(ms[0]) {
      NothingIsDropped(ms[1..], names);
    } else {
      ProperExchangeIsComplete(ms, names);
      NothingIsDropped(Rest(ms), OpenedNames(ms[0], names));
    }
  }

  // ---------------------------------------------------------------------
  // Collected ids against the calls Gemini actually sees
  // ---------------------------------------------------------------------

  function Count(calls: seq<ToolCall>, p: ToolCall -> bool): nat {
    if calls == [] then 0 else Count(calls[..|calls|-1], p) + if p(calls[|calls|-1]) then 1 else 0
  }

  lemma {:induction false} CountZero(calls: seq<ToolCall>, p: ToolCall -> bool)
    ensures Count(calls, p) == 0 <==> forall c <- calls :: !p(c)
  {
    if calls != [] {
      CountZero(calls[..|calls|-1], p);
      assert calls == calls[..|calls|-1] + [calls[|calls|-1]];
    }
  }

  const UNNAMED := (c: ToolCall) => Active(c) && !Named(c)
  const UNIDENTIFIED := (c: ToolCall) => Named(c) && !Active(c)

  lemma {:induction false} CallBalance(calls: seq<ToolCall>)
    ensures forall p <- CallParts(calls) :: !p.Text?
    ensures |CollectedIds(calls)| + Count(calls, UNIDENTIFIED) == |CallParts(calls)| + Count(calls, UNNAMED)
    ensures "" !in CollectedIds(calls)
    ensures Count(calls, UNIDENTIFIED) > 0 ==> exists p <- CallParts(calls) :: p.FunctionCall? && p.id == ""
    ensures Count(calls, UNIDENTIFIED) == 0 && Count(calls, UNNAMED) == 0 ==>
              PartIds(CallParts(calls)) == CollectedIds(calls)
  {
    if calls != [] {
      var n := |calls| - 1;
      CallBalance(calls[..n]);
      if Named(calls[n]) {
        assert CallParts(calls)[|CallParts(calls[..n])|].id == calls[n].id;
      }
    }
  }

  /**
   The ids a response turn must match are the ids of the FunctionCall parts that
   Gemini sees exactly when no call has an id without a name or a name without an id.
   */
  lemma {:induction false} CollectedIdsAreThePartIds(calls: seq<ToolCall>)
    ensures forall p <- CallParts(calls) :: !p.Text?
    ensures PartIds(CallParts(calls)) == CollectedIds(calls) <==> forall c <- calls :: Active(c) <==> Named(c)
  {
    CallBalance(calls);
    CountZero(calls, UNNAMED);
    CountZero(calls, UNIDENTIFIED);
    var parts := CallParts(calls);
    if PartIds(parts) == CollectedIds(calls) {
      forall i | 0 <= i < |parts| ensures parts[i].id != "" {
        assert PartIds(parts)[i] in CollectedIds(calls);
      }
    }
  }

  /** A call without a name is no FunctionCall for Gemini, yet the reply to it comes through. */
  lemma {:induction false} NamelessCallIsAnswered(caller: Message, reply: Message)
    requires caller == Message("assistant", "hi", "", "", [ToolCall("c1", Some(FunctionPayload("", "{}")))])
    requires reply == Message("tool", "ok", "search", "c1", [])
    ensures Transcript([caller, reply], map[])
            == [Turn("model", [Text("hi")]), Turn("user", [FunctionResponse("c1", "search", "ok")])]
  {
    var ms, calls := [caller, reply], caller.toolCalls;
    assert ms[1..] == [reply] && [reply][1..] == [] && [reply][..0] == [] && calls[..0] == [];
    assert RunLength([reply]) == 1 && Replies(ms, 0) == [reply] && Rest(ms) == [];
    assert CollectedIds(calls) == ["c1"] && CallParts(calls) == [] && CollectedNames(calls, map[]) == map[];
    assert OpeningTurn(caller) == Turn("model", [Text("hi")] + []);
    assert Accepted(["c1"], [reply], map[], 0);
    assert AcceptedReplies(["c1"], [reply], map[]) == [reply];
    assert ReplyIds([reply]) == ["c1"];
    assert ReplyParts([reply], map[]) == [FunctionResponse("c1", "search", "ok")];
    assert Answer(ms, map[]) == [Turn("user", ReplyParts([reply], map[]))];
    assert !Attached(caller);
    TranscriptSplits(ms, map[]);
    assert Transcript(Rest(ms), OpenedNames(caller, map[])) == [];
    var t := Transcript(ms, map[]);
    assert t == [OpeningTurn(caller)] + Answer(ms, map[]) + [];
    assert OpeningTurn(caller) == Turn("model", [Text("hi")]);
    assert Answer(ms, map[]) == [Turn("user", [FunctionResponse("c1", "search", "ok")])];
  }

  /** Two calls answered completely but in the other order: the answers are dropped. */
  lemma {:induction false} SwappedAnswersAreDropped(caller: Message, a: Message, b: Message, names: Names)
    requires caller == Message("assistant", "", "", "", [
                         ToolCall("a", Some(FunctionPayload("search", "{}"))),
                         ToolCall("b", Some(FunctionPayload("search", "{}")))])
    requires a == Message("tool", "one", "", "a", []) && b == Message("tool", "two", "", "b", [])
    ensures ProperCalls(caller.toolCalls)
    ensures Transcript([caller, b, a], names) == [OpeningTurn(caller)]
    ensures Transcript([caller, a, b], names) != [OpeningTurn(caller)]
  {
    var calls := caller.toolCalls;
    var names' := CollectedNames(calls, names);
    ProperIds(calls);
    ProperNames(calls, names);
    assert calls[0].id == "a" && calls[1].id == "b" && "a"[0] != "b"[0];
    assert CollectedIds(calls) == ["a", "b"];
    TwoReplies(caller, b, a, names);
    TwoReplies(caller, a, b, names);
    assert ["b", "a"][0] != ["a", "b"][0];
  }

  /** A caller and two eligible replies with different ids: a response turn appears when the ids come in call order. */
  lemma {:induction false} TwoReplies(caller: Message, x: Message, y: Message, names: Names)
    requires caller.role == "assistant" && x.role == "tool" && y.role == "tool" && x.toolCallId != y.toolCallId
    requires CollectedIds(caller.toolCalls) != []
    requires Eligible(x, CollectedIds(caller.toolCalls), CollectedNames(caller.toolCalls, names))
    requires Eligible(y, CollectedIds(caller.toolCalls), CollectedNames(caller.toolCalls, names))
    ensures Transcript([caller, x, y], names) == [OpeningTurn(caller)] <==>
            [x.toolCallId, y.toolCallId] != CollectedIds(caller.toolCalls)
  {
    TwoToolReplies(x, y);
    DistinctRepliesAreAccepted(CollectedIds(caller.toolCalls), [x, y], CollectedNames(caller.toolCalls, names));
    OneExchange(caller, [x, y], names);
    assert [caller] + [x, y] == [caller, x, y];
  }

  lemma {:induction false} TwoToolReplies(x: Message, y: Message)
    requires x.role == "tool" && y.role == "tool"
    ensures ToolReplies([x, y]) == [x, y] && ReplyIds([x, y]) == [x.toolCallId, y.toolCallId]
    ensures RunLength([x, y]) == 2
  {
    assert [x, y][..1] == [x] && [x][..0] == [] && [x, y][1..] == [y] && [y][1..] == [];
    assert ToolReplies([x]) == [x];
    assert RunLength([y]) == 1;
  }

  /** A conversation that is one exchange. */
  lemma {:induction false} OneExchange(caller: Message, replies: seq<Message>, names: Names)
    requires caller.role == "assistant" && RunLength(replies) == |replies|
    ensures Transcript([caller] + replies, names)
            == [OpeningTurn(caller)]
               + ResponseTurn(CollectedIds(caller.toolCalls), replies, CollectedNames(caller.toolCalls, names))
  {
    var ms := [caller] + replies;
    assert ms[1..] == replies && replies[..|replies|] == replies;
    assert Rest(ms) == [];
    assert Transcript([], OpenedNames(caller, names)) == [];
  }
}
