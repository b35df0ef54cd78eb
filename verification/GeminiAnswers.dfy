/**
 When the answers to an exchange get through: the condition for any messages whatever,
 orphans, repeats and shared ids included.
 */
module GeminiAnswers {
  import opened Basics
  import opened Sublists
  import opened GeminiTranscript
  import opened GeminiProtocol

  predicate Positions(p: seq<int>, replies: seq<Message>) { forall i :: 0 <= i < |p| ==> 0 <= p[i] < |replies| }

  /** The first eligible reply to each call stands at p, call by call, and they come in call order. */
  ghost predicate InCallOrder(ids: seq<string>, replies: seq<Message>, names: Names, p: seq<int>) {
    |p| == |ids| && Increasing(p) && Positions(p, replies)
    && forall i :: 0 <= i < |p| ==> Accepted(ids, replies, names, p[i]) && replies[p[i]].toolCallId == ids[i]
  }

  function AcceptedPositions(ids: seq<string>, replies: seq<Message>, names: Names): seq<int> {
    if replies == [] then []
    else
      var n := |replies| - 1;
      var rest := AcceptedPositions(ids, replies[..n], names);
      if Accepted(ids, replies, names, n) then rest + [n] else rest
  }

  lemma {:induction false} AcceptedInFront(ids: seq<string>, replies: seq<Message>, names: Names, n: nat, k: nat)
    requires k < n <= |replies|
    ensures Accepted(ids, replies[..n], names, k) <==> Accepted(ids, replies, names, k)
  {
    assert forall j :: 0 <= j < n ==> replies[..n][j] == replies[j];
  }

  /** p lists the positions of the replies r, which are all the accepted ones. */
  ghost predicate Places(ids: seq<string>, replies: seq<Message>, names: Names, p: seq<int>, r: seq<Message>) {
    Increasing(p) && Positions(p, replies) && |p| == |r|
    && (forall i :: 0 <= i < |p| ==> Accepted(ids, replies, names, p[i]) && r[i] == replies[p[i]])
    && forall k :: 0 <= k < |replies| && Accepted(ids, replies, names, k) ==> Holds(p, k)
  }

  lemma {:induction false} NextPlaces(ids: seq<string>, replies: seq<Message>, names: Names, p: seq<int>,
                                      r: seq<Message>)
    requires replies != [] && Places(ids, replies[..|replies|-1], names, p, r)
    ensures var n := |replies| - 1;
            if Accepted(ids, replies, names, n) then Places(ids, replies, names, p + [n], r + [replies[n]])
            else Places(ids, replies, names, p, r)
  {
    var n := |replies| - 1;
    var p' := if Accepted(ids, replies, names, n) then p + [n] else p;
    forall k | 0 <= k < n
      ensures Accepted(ids, replies[..n], names, k) <==> Accepted(ids, replies, names, k)
    {
      AcceptedInFront(ids, replies, names, n, k);
    }
    assert forall i :: 0 <= i < |p| ==> p'[i] == p[i];
    forall k | 0 <= k < |replies| && Accepted(ids, replies, names, k) ensures Holds(p', k) {
      if k < n {
        assert Holds(p, k);
      } else {
        assert p'[|p|] == k;
      }
    }
  }

  lemma {:induction false} AcceptedStandThere(ids: seq<string>, replies: seq<Message>, names: Names)
    ensures Places(ids, replies, names, AcceptedPositions(ids, replies, names), AcceptedReplies(ids, replies, names))
  {
    if replies != [] {
      AcceptedStandThere(ids, replies[..|replies|-1], names);
      NextPlaces(ids, replies, names, AcceptedPositions(ids, replies[..|replies|-1], names),
                 AcceptedReplies(ids, replies[..|replies|-1], names));
    }
  }

  /** Whatever the messages: answers get through exactly when the first eligible replies come in call order. */
  lemma {:induction false} AnswersGetThrough(ids: seq<string>, replies: seq<Message>, names: Names)
    ensures ResponseTurn(ids, replies, names) != [] <==> ids != [] && exists p :: InCallOrder(ids, replies, names, p)
  {
    var q, accepted := AcceptedPositions(ids, replies, names), AcceptedReplies(ids, replies, names);
    AcceptedStandThere(ids, replies, names);
    assert |ReplyIds(accepted)| == |accepted|;
    if ReplyIds(accepted) == ids {
      forall i | 0 <= i < |q| ensures replies[q[i]].toolCallId == ids[i] {
        assert ReplyIds(accepted)[i] == ids[i];
      }
      assert InCallOrder(ids, replies, names, q);
    }
    if p :| InCallOrder(ids, replies, names, p) {
      OrderIsThatOfAccepted(ids, replies, names, p);
      assert ReplyIds(accepted) == ids;
    }
  }

  lemma {:induction false} OrderIsThatOfAccepted(ids: seq<string>, replies: seq<Message>, names: Names, p: seq<int>)
    requires InCallOrder(ids, replies, names, p)
    ensures p == AcceptedPositions(ids, replies, names)
  {
    var q := AcceptedPositions(ids, replies, names);
    AcceptedStandThere(ids, replies, names);
    assert AllHeld(p, q);
    forall j | 0 <= j < |q| ensures Holds(p, q[j]) {
      var id := replies[q[j]].toolCallId;
      var i :| 0 <= i < |ids| && ids[i] == id;
      assert Accepted(ids, replies, names, p[i]) && Accepted(ids, replies, names, q[j]);
      assert p[i] == q[j];
    }
    OneIncreasingList(p, q);
  }

  /** Calls that share an id are never answered, whatever comes. */
  lemma {:induction false} SharedIdIsNeverAnswered(ids: seq<string>, replies: seq<Message>, names: Names)
    requires !Distinct(ids)
    ensures ResponseTurn(ids, replies, names) == []
  {
    AcceptedCovers(ids, replies, names);
  }

  /** Some eligible reply answers the call. */
  ghost predicate Answered(ids: seq<string>, replies: seq<Message>, names: Names, id: string) {
    exists j :: 0 <= j < |replies| && Eligible(replies[j], ids, names) && replies[j].toolCallId == id
  }

  /** A reply the queue has no use for: not eligible, or to a call that is answered already. */
  ghost predicate Idle(ids: seq<string>, before: seq<Message>, names: Names, m: Message) {
    !Eligible(m, ids, names) || Answered(ids, before, names, m.toolCallId)
  }

  lemma {:induction false} AnsweredBehind(ids: seq<string>, a: seq<Message>, m: Message, b: seq<Message>, names: Names,
                                          id: string)
    requires Idle(ids, a, names, m)
    ensures Answered(ids, a + [m] + b, names, id) <==> Answered(ids, a + b, names, id)
  {
    var with, without := a + [m] + b, a + b;
    if j :| 0 <= j < |with| && Eligible(with[j], ids, names) && with[j].toolCallId == id {
      if j == |a| {
        var k :| 0 <= k < |a| && Eligible(a[k], ids, names) && a[k].toolCallId == id;
        assert without[k] == a[k];
      } else {
        assert with[j] == without[if j < |a| then j else j - 1];
      }
    }
    if j :| 0 <= j < |without| && Eligible(without[j], ids, names) && without[j].toolCallId == id {
      assert without[j] == with[if j < |a| then j else j + 1];
    }
  }

  lemma {:induction false} AcceptedIsUnanswered(ids: seq<string>, replies: seq<Message>, m: Message, names: Names)
    ensures Accepted(ids, replies + [m], names, |replies|) <==> !Idle(ids, replies, names, m)
    ensures AcceptedReplies(ids, replies + [m], names)
            == AcceptedReplies(ids, replies, names) + if Idle(ids, replies, names, m) then [] else [m]
  {
    var all := replies + [m];
    assert all[..|replies|] == replies;
    assert forall j :: 0 <= j < |replies| ==> all[j] == replies[j];
  }

  /** Orphans, nameless replies and repeats may stand anywhere: without them the same replies are accepted. */
  lemma {:induction false} IdleRepliesAreIgnored(ids: seq<string>, a: seq<Message>, m: Message, b: seq<Message>,
                                                 names: Names)
    requires Idle(ids, a, names, m)
    ensures AcceptedReplies(ids, a + [m] + b, names) == AcceptedReplies(ids, a + b, names)
    ensures ResponseTurn(ids, a + [m] + b, names) == ResponseTurn(ids, a + b, names)
  {
    if b == [] {
      assert a + [m] + b == a + [m] && a + b == a;
      AcceptedIsUnanswered(ids, a, m, names);
    } else {
      var front, last := b[..|b|-1], b[|b|-1];
      assert a + [m] + b == (a + [m] + front) + [last] && a + b == (a + front) + [last];
      IdleRepliesAreIgnored(ids, a, m, front, names);
      AnsweredBehind(ids, a, m, front, names, last.toolCallId);
      AcceptedIsUnanswered(ids, a + [m] + front, last, names);
      AcceptedIsUnanswered(ids, a + front, last, names);
    }
  }

  // ---------------------------------------------------------------------
  // Where the ids of the replies alone do not decide
  // ---------------------------------------------------------------------

  /** Two calls with one id, answered one by one: the replies bear the very ids of the calls, and are dropped. */
  lemma {:induction false} SharedIdDropsTheAnswers(x: Message, y: Message, names: Names)
    requires Eligible(x, ["a", "a"], names) && Eligible(y, ["a", "a"], names)
    ensures ReplyIds(ToolReplies([x, y])) == ["a", "a"] && ResponseTurn(["a", "a"], [x, y], names) == []
  {
    TwoToolReplies(x, y);
    assert ["a", "a"][0] == ["a", "a"][1];
    SharedIdIsNeverAnswered(["a", "a"], [x, y], names);
  }

  /** Two calls, the first of them answered twice: the replies do not bear the ids of the calls, and get through. */
  lemma {:induction false} RepeatedAnswerDoesNoHarm(ids: seq<string>, x: Message, y: Message, names: Names)
    requires ids == [x.toolCallId, y.toolCallId] && x.toolCallId != y.toolCallId
    requires Eligible(x, ids, names) && Eligible(y, ids, names)
    ensures ReplyIds(ToolReplies([x, x, y])) != ids && ResponseTurn(ids, [x, x, y], names) != []
  {
    TwoToolReplies(x, y);
    TwoToolReplies(x, x);
    ThreeToolReplies(x, x, y);
    SecondAnswerIsIdle(ids, x, y, names);
    DistinctRepliesAreAccepted(ids, [x, y], names);
  }

  lemma {:induction false} SecondAnswerIsIdle(ids: seq<string>, x: Message, y: Message, names: Names)
    requires Eligible(x, ids, names)
    ensures ResponseTurn(ids, [x, x, y], names) == ResponseTurn(ids, [x, y], names)
  {
    assert [x][0] == x;
    assert Answered(ids, [x], names, x.toolCallId);
    IdleRepliesAreIgnored(ids, [x], x, [y], names);
    assert [x] + [x] + [y] == [x, x, y] && [x] + [y] == [x, y];
  }

  lemma {:induction false} ThreeToolReplies(x: Message, y: Message, z: Message)
    requires z.role == "tool" && ToolReplies([x, y]) == [x, y]
    ensures |ReplyIds(ToolReplies([x, y, z]))| == 3
  {
    assert [x, y, z][..2] == [x, y];
    assert ToolReplies([x, y, z]) == [x, y] + [z];
  }
}
