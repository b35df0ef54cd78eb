/**
 The Gemini transcript builder of vertex_gemini_adapter.py: an OpenAI-style
 message list is folded into Gemini turns, and tool responses survive only as a
 complete turn right behind the model turn whose calls they answer.
 */
module GeminiTranscript {
  import opened Basics

  datatype FunctionPayload = FunctionPayload(name: string, arguments: string)

  /** One entry of a message's tool_calls; NotDict stands for a malformed entry. */
  datatype ToolCall = NotDict | ToolCall(id: string, payload: Option<FunctionPayload>)

  datatype Message = Message(
    role: string, content: string, name: string, toolCallId: string, toolCalls: seq<ToolCall>)

  datatype Part =
    | Text(text: string)
    | FunctionCall(id: string, name: string, args: string)
    | FunctionResponse(id: string, name: string, response: string)

  datatype Turn = Turn(role: string, parts: seq<Part>)

  type Names = map<string, string>

  // ---------------------------------------------------------------------
  // Calls of one assistant message
  // ---------------------------------------------------------------------

  /** The call counts as active: it has an id and a function payload. */
  predicate Active(c: ToolCall) { c.ToolCall? && c.id != "" && c.payload.Some? }

  /** The call becomes a FunctionCall part: it has a payload with a name. */
  predicate Named(c: ToolCall) { c.ToolCall? && c.payload.Some? && c.payload.value.name != "" }

  function CollectedIds(calls: seq<ToolCall>): seq<string> {
    if calls == [] then []
    else
      var rest := CollectedIds(calls[..|calls|-1]);
      var c := calls[|calls|-1];
      if Active(c) then rest + [c.id] else rest
  }

  function CollectedNames(calls: seq<ToolCall>, names: Names): Names {
    if calls == [] then names
    else
      var rest := CollectedNames(calls[..|calls|-1], names);
      var c := calls[|calls|-1];
      if Active(c) && Named(c) then rest[c.id := c.payload.value.name] else rest
  }

  function CallParts(calls: seq<ToolCall>): seq<Part> {
    if calls == [] then []
    else
      var rest := CallParts(calls[..|calls|-1]);
      var c := calls[|calls|-1];
      if Named(c) then rest + [FunctionCall(c.id, c.payload.value.name, c.payload.value.arguments)] else rest
  }

  function PartIds(parts: seq<Part>): (ids: seq<string>)
    requires forall p <- parts :: !p.Text?
    ensures |ids| == |parts|
    ensures forall i :: 0 <= i < |ids| ==> ids[i] == parts[i].id
  {
    seq(|parts|, i requires 0 <= i < |parts| => parts[i].id)
  }

  lemma {:induction false} CallPartsAreCalls(calls: seq<ToolCall>)
    ensures forall p <- CallParts(calls) :: p.FunctionCall?
  {
    if calls != [] {
      CallPartsAreCalls(calls[..|calls|-1]);
    }
  }

  method CollectActiveToolCallIds(message: Message, names: Names) returns (ids: seq<string>, names': Names)
    ensures ids == CollectedIds(message.toolCalls)
    ensures names' == CollectedNames(message.toolCalls, names)
  {
    ids, names' := [], names;
    var calls := message.toolCalls;
    for i := 0 to |calls|
      invariant ids == CollectedIds(calls[..i])
      invariant names' == CollectedNames(calls[..i], names)
    {
      assert calls[..i+1][..i] == calls[..i];
      var call := calls[i];
      if call.NotDict? || call.id == "" || call.payload.None? {
        continue;
      }
      var toolName := call.payload.value.name;
      if toolName != "" {
        names' := names'[call.id := toolName];
      }
      ids := ids + [call.id];
    }
    assert calls[..|calls|] == calls;
  }

  method BuildAssistantToolCallParts(message: Message) returns (parts: seq<Part>)
    ensures parts == CallParts(message.toolCalls)
  {
    parts := [];
    var calls := message.toolCalls;
    for i := 0 to |calls|
      invariant parts == CallParts(calls[..i])
    {
      assert calls[..i+1][..i] == calls[..i];
      var call := calls[i];
      if call.NotDict? || call.payload.None? || call.payload.value.name == "" {
        continue;
      }
      parts := parts + [FunctionCall(call.id, call.payload.value.name, call.payload.value.arguments)];
    }
    assert calls[..|calls|] == calls;
  }

  function ContentParts(m: Message): seq<Part> {
    var text := if m.content != "" then [Text(m.content)] else [];
    var parts := text + if m.role == "assistant" then CallParts(m.toolCalls) else [];
    if parts == [] then [Text("")] else parts
  }

  method BuildContentParts(message: Message) returns (parts: seq<Part>)
    ensures parts == ContentParts(message)
  {
    parts := [];
    if message.content != "" {
      parts := [Text(message.content)];
    }
    if message.role == "assistant" {
      var calls := BuildAssistantToolCallParts(message);
      parts := parts + calls;
    }
    if parts == [] {
      parts := [Text("")];
    }
  }

  // ---------------------------------------------------------------------
  // Tool responses
  // ---------------------------------------------------------------------

  function ResponseName(m: Message, names: Names): string {
    if m.name != "" then m.name
    else if m.toolCallId != "" && m.toolCallId in names then names[m.toolCallId]
    else ""
  }

  function ResponsePart(m: Message, names: Names): Option<Part> {
    var name := ResponseName(m, names);
    if name == "" then None else Some(FunctionResponse(m.toolCallId, name, m.content))
  }

  method FlushPendingToolResponses(contents: seq<Turn>, pendingParts: seq<Part>, activeIds: seq<string>,
                                   pendingIds: seq<string>)
    returns (contents': seq<Turn>, pendingParts': seq<Part>, pendingIds': seq<string>, activeIds': seq<string>)
    ensures pendingParts' == [] && pendingIds' == [] && activeIds' == []
    ensures contents' == contents + Flushed(pendingParts, pendingIds, activeIds)
  {
    contents', pendingParts', pendingIds', activeIds' := contents, [], [], [];
    if pendingParts == [] {
      return;
    }
    if activeIds != [] && pendingIds != activeIds {
      return;
    }
    contents' := contents + [Turn("user", pendingParts)];
  }

  /** The turns a flush adds: at most one, and none when an answer is missing. */
  function Flushed(parts: seq<Part>, ids: seq<string>, activeIds: seq<string>): seq<Turn> {
    if parts == [] || (activeIds != [] && ids != activeIds) then [] else [Turn("user", parts)]
  }

  /** A tool message the builder may take: it answers an active call and can be named. */
  predicate Eligible(m: Message, activeIds: seq<string>, names: Names) {
    m.role == "tool" && m.toolCallId != "" && m.toolCallId in activeIds && ResponsePart(m, names).Some?
  }

  method QueueToolResponsePart(message: Message, activeIds: seq<string>, pendingParts: seq<Part>,
                               pendingIds: seq<string>, names: Names)
    returns (pendingParts': seq<Part>, pendingIds': seq<string>)
    requires message.role == "tool"
    ensures Eligible(message, activeIds, names) && message.toolCallId !in pendingIds ==>
              pendingParts' == pendingParts + [ResponsePart(message, names).value] &&
              pendingIds' == pendingIds + [message.toolCallId]
    ensures !(Eligible(message, activeIds, names) && message.toolCallId !in pendingIds) ==>
              pendingParts' == pendingParts && pendingIds' == pendingIds
  {
    pendingParts', pendingIds' := pendingParts, pendingIds;
    if activeIds == [] || message.toolCallId == "" || message.toolCallId !in activeIds {
      return;
    }
    if message.toolCallId in pendingIds {
      return;
    }
    var part := ResponsePart(message, names);
    if part == None {
      return;
    }
    pendingParts', pendingIds' := pendingParts + [part.value], pendingIds + [message.toolCallId];
  }

  // ---------------------------------------------------------------------
  // Reference: a message list read as a sequence of exchanges
  // ---------------------------------------------------------------------

  /** A message that opens no turn of its own. */
  predicate Attached(m: Message) { m.role == "system" || m.role == "tool" }

  /** Length of the run of attached messages at the front. */
  function RunLength(ms: seq<Message>): (n: nat)
    ensures n <= |ms|
  {
    if ms != [] && Attached(ms[0]) then 1 + RunLength(ms[1..]) else 0
  }

  lemma {:induction false} RunIsMaximal(ms: seq<Message>)
    ensures forall m <- ms[..RunLength(ms)] :: Attached(m)
    ensures RunLength(ms) < |ms| ==> !Attached(ms[RunLength(ms)])
  {
    if ms != [] && Attached(ms[0]) {
      RunIsMaximal(ms[1..]);
      assert ms[..RunLength(ms)] == [ms[0]] + ms[1..][..RunLength(ms[1..])];
    }
  }

  function OpeningTurn(m: Message): Turn {
    Turn(if m.role == "user" then "user" else "model", ContentParts(m))
  }

  function OpenedIds(m: Message): seq<string> {
    if m.role == "assistant" then CollectedIds(m.toolCalls) else []
  }

  function OpenedNames(m: Message, names: Names): Names {
    if m.role == "assistant" then CollectedNames(m.toolCalls, names) else names
  }

  /** Reply k is the first eligible one for its call. */
  predicate Accepted(ids: seq<string>, replies: seq<Message>, names: Names, k: nat)
    requires k < |replies|
  {
    Eligible(replies[k], ids, names) &&
    forall j :: 0 <= j < k && Eligible(replies[j], ids, names) ==> replies[j].toolCallId != replies[k].toolCallId
  }

  /** The accepted replies of one exchange, in the order they arrived. */
  function AcceptedReplies(ids: seq<string>, replies: seq<Message>, names: Names): (r: seq<Message>)
    ensures forall m <- r :: Eligible(m, ids, names)
  {
    if replies == [] then []
    else
      var n := |replies| - 1;
      var rest := AcceptedReplies(ids, replies[..n], names);
      if Accepted(ids, replies, names, n) then rest + [replies[n]] else rest
  }

  function ReplyIds(ms: seq<Message>): seq<string> {
    seq(|ms|, i requires 0 <= i < |ms| => ms[i].toolCallId)
  }

  function ReplyParts(ms: seq<Message>, names: Names): seq<Part> {
    seq(|ms|, i requires 0 <= i < |ms| => FunctionResponse(ms[i].toolCallId, ResponseName(ms[i], names), ms[i].content))
  }

  /** The response turn of one exchange: present exactly when the accepted replies answer every call in order. */
  function ResponseTurn(ids: seq<string>, replies: seq<Message>, names: Names): seq<Turn> {
    var accepted := AcceptedReplies(ids, replies, names);
    if ids != [] && ReplyIds(accepted) == ids then [Turn("user", ReplyParts(accepted, names))] else []
  }

  /** The attached messages right behind ms[k]. */
  function Replies(ms: seq<Message>, k: nat): seq<Message>
    requires k < |ms|
  {
    ms[k+1..][..RunLength(ms[k+1..])]
  }

  /** What is left behind the first message and its replies. */
  function Rest(ms: seq<Message>): (r: seq<Message>)
    requires ms != []
    ensures |r| < |ms|
  {
    ms[1..][RunLength(ms[1..])..]
  }

  function Answer(ms: seq<Message>, names: Names): seq<Turn>
    requires ms != []
  {
    ResponseTurn(OpenedIds(ms[0]), Replies(ms, 0), OpenedNames(ms[0], names))
  }

  /** The transcript exchange by exchange: an opening turn, its answer if complete, and the rest. */
  function Transcript(ms: seq<Message>, names: Names): seq<Turn>
    decreases |ms|
  {
    if ms == [] then []
    else if Attached(ms[0]) then Transcript(ms[1..], names)
    else [OpeningTurn(ms[0])] + Answer(ms, names) + Transcript(Rest(ms), OpenedNames(ms[0], names))
  }

  function LastSystem(ms: seq<Message>): Option<string> {
    if ms == [] then None
    else if ms[|ms|-1].role == "system" then Some(ms[|ms|-1].content)
    else LastSystem(ms[..|ms|-1])
  }

  // ---------------------------------------------------------------------
  // The fold and its agreement with the reference
  // ---------------------------------------------------------------------

  datatype State = State(
    contents: seq<Turn>, pendingParts: seq<Part>, pendingIds: seq<string>, activeIds: seq<string>, names: Names)

  const START := State([], [], [], [], map[])

  function Queued(s: State, m: Message): State {
    if Eligible(m, s.activeIds, s.names) && m.toolCallId !in s.pendingIds then
      s.(pendingParts := s.pendingParts + [ResponsePart(m, s.names).value], pendingIds := s.pendingIds + [m.toolCallId])
    else s
  }

  function Closed(s: State): seq<Turn> {
    s.contents + Flushed(s.pendingParts, s.pendingIds, s.activeIds)
  }

  function Step(s: State, m: Message): State {
    if m.role == "system" then s
    else if m.role == "tool" then Queued(s, m)
    else State(Closed(s) + [OpeningTurn(m)], [], [], OpenedIds(m), OpenedNames(m, s.names))
  }

  function Run(s: State, ms: seq<Message>): State {
    if ms == [] then s else Step(Run(s, ms[..|ms|-1]), ms[|ms|-1])
  }

  lemma {:induction false} RunSplit(s: State, a: seq<Message>, b: seq<Message>)
    ensures Run(s, a + b) == Run(Run(s, a), b)
  {
    if b == [] {
      assert a + b == a;
    } else {
      var n := |b| - 1;
      RunSplit(s, a, b[..n]);
      assert (a + b)[..|a + b| - 1] == a + b[..n];
    }
  }

  /** The queue tells by its ids whether a call is answered already. */
  lemma {:induction false} QueuedIdsTell(ids: seq<string>, before: seq<Message>, m: Message, names: Names)
    requires Eligible(m, ids, names)
    ensures Accepted(ids, before + [m], names, |before|) <==>
            m.toolCallId !in ReplyIds(AcceptedReplies(ids, before, names))
  {
    var replies, r := before + [m], AcceptedReplies(ids, before, names);
    AcceptedCovers(ids, before, names);
    assert replies[|before|] == m && forall j :: 0 <= j < |before| ==> replies[j] == before[j];
    if Accepted(ids, replies, names, |before|) {
      forall i | 0 <= i < |r| ensures r[i].toolCallId != m.toolCallId {
        assert r[i] in r && r[i] in before;
      }
    }
  }

  /** What is queued while an exchange is open is exactly the accepted replies so far. */
  lemma {:induction false} QueueIsAccepted(s: State, replies: seq<Message>)
    requires s.pendingParts == [] && s.pendingIds == []
    requires forall m <- replies :: Attached(m)
    ensures var r := AcceptedReplies(s.activeIds, replies, s.names);
            Run(s, replies) == s.(pendingParts := ReplyParts(r, s.names), pendingIds := ReplyIds(r))
  {
    if replies != [] {
      var n := |replies| - 1;
      var before, m := replies[..n], replies[n];
      QueueIsAccepted(s, before);
      var r := AcceptedReplies(s.activeIds, before, s.names);
      assert m in replies && replies == before + [m];
      if Eligible(m, s.activeIds, s.names) {
        QueuedIdsTell(s.activeIds, before, m, s.names);
        assert ReplyIds(r + [m]) == ReplyIds(r) + [m.toolCallId];
        assert ReplyParts(r + [m], s.names) == ReplyParts(r, s.names) + [ResponsePart(m, s.names).value];
      }
    }
  }

  /** Every eligible reply's call id is among the accepted ones, and nothing else is. */
  lemma {:induction false} AcceptedCovers(ids: seq<string>, replies: seq<Message>, names: Names)
    ensures forall j :: 0 <= j < |replies| && Eligible(replies[j], ids, names) ==>
              replies[j].toolCallId in ReplyIds(AcceptedReplies(ids, replies, names))
    ensures forall m <- AcceptedReplies(ids, replies, names) :: m in replies
    ensures Distinct(ReplyIds(AcceptedReplies(ids, replies, names)))
  {
    if replies != [] {
      var n := |replies| - 1;
      var before := replies[..n];
      AcceptedCovers(ids, before, names);
      var r := AcceptedReplies(ids, before, names);
      if Accepted(ids, replies, names, n) {
        assert ReplyIds(r + [replies[n]]) == ReplyIds(r) + [replies[n].toolCallId];
        forall i | 0 <= i < |r| ensures r[i].toolCallId != replies[n].toolCallId {
          assert r[i] in before;
        }
      } else if Eligible(replies[n], ids, names) {
        var j :| 0 <= j < n && Eligible(replies[j], ids, names) && replies[j].toolCallId == replies[n].toolCallId;
        assert before[j].toolCallId in ReplyIds(r);
      }
    }
  }

  lemma {:induction false} ClosedAfterReplies(s: State, replies: seq<Message>)
    requires s.pendingParts == [] && s.pendingIds == []
    requires forall m <- replies :: Attached(m)
    ensures Closed(Run(s, replies)) == s.contents + ResponseTurn(s.activeIds, replies, s.names)
    ensures Run(s, replies).names == s.names
  {
    QueueIsAccepted(s, replies);
    var r := AcceptedReplies(s.activeIds, replies, s.names);
    assert r != [] ==> Eligible(r[0], s.activeIds, s.names);
    assert |ReplyParts(r, s.names)| == |ReplyIds(r)| == |r|;
  }

  /** The fold from s on adds what the reference has for the messages. */
  ghost predicate Agrees(s: State, ms: seq<Message>) {
    var n := RunLength(ms);
    Closed(Run(s, ms)) == s.contents + (ResponseTurn(s.activeIds, ms[..n], s.names) + Transcript(ms[n..], s.names))
  }

  lemma {:induction false} RunFromTheFront(s: State, ms: seq<Message>)
    requires ms != []
    ensures Run(s, ms) == Run(Step(s, ms[0]), ms[1..])
  {
    assert ms == [ms[0]] + ms[1..];
    RunSplit(s, [ms[0]], ms[1..]);
    RunOne(s, ms[0]);
  }

  /** An exchange as the reference reads it. */
  lemma {:induction false} TranscriptOfExchange(ms: seq<Message>, names: Names)
    requires ms != [] && !Attached(ms[0])
    ensures var n, names' := RunLength(ms[1..]), OpenedNames(ms[0], names);
            Transcript(ms, names)
            == [OpeningTurn(ms[0])]
               + (ResponseTurn(OpenedIds(ms[0]), ms[1..][..n], names') + Transcript(ms[1..][n..], names'))
  {
    assert ms[0+1..] == ms[1..];
    Associates([OpeningTurn(ms[0])], Answer(ms, names), Transcript(Rest(ms), OpenedNames(ms[0], names)));
  }

  /** A message that opens an exchange, on top of what the fold knows of the rest. */
  lemma {:induction false} NextExchange(s: State, ms: seq<Message>, next: State)
    requires ms != [] && !Attached(ms[0]) && next == Step(s, ms[0]) && Agrees(next, ms[1..])
    ensures Closed(Run(s, ms)) == Closed(s) + Transcript(ms, s.names)
  {
    RunFromTheFront(s, ms);
    TranscriptOfExchange(ms, s.names);
    var n := RunLength(ms[1..]);
    Associates(Closed(s), [OpeningTurn(ms[0])],
               ResponseTurn(next.activeIds, ms[1..][..n], next.names) + Transcript(ms[1..][n..], next.names));
  }

  /** From a freshly opened exchange onwards, the fold and the reference add the same turns. */
  lemma {:induction false} RunMatchesTranscript(s: State, ms: seq<Message>)
    requires s.pendingParts == [] && s.pendingIds == []
    ensures Agrees(s, ms)
    decreases |ms|
  {
    var head, tail := ms[..RunLength(ms)], ms[RunLength(ms)..];
    assert ms == head + tail;
    RunIsMaximal(ms);
    ClosedAfterReplies(s, head);
    RunSplit(s, head, tail);
    if tail != [] {
      var reached := Run(s, head);
      RunMatchesTranscript(Step(reached, tail[0]), tail[1..]);
      NextExchange(reached, tail, Step(reached, tail[0]));
      Associates(s.contents, ResponseTurn(s.activeIds, head, s.names), Transcript(tail, s.names));
    }
  }

  lemma {:induction false} RunOne(s: State, m: Message)
    ensures Run(s, [m]) == Step(s, m)
  {}

  lemma {:induction false} LeadingRunIsDropped(ms: seq<Message>, names: Names)
    ensures Transcript(ms[RunLength(ms)..], names) == Transcript(ms, names)
  {
    if ms != [] && Attached(ms[0]) {
      LeadingRunIsDropped(ms[1..], names);
      assert ms[1..][RunLength(ms[1..])..] == ms[RunLength(ms)..];
    }
  }

  /** The builder's output is the reference transcript, and the last system message wins. */
  method PrepareContentsAndSystem(messages: seq<Message>) returns (system: Option<string>, contents: seq<Turn>)
    ensures contents == Transcript(messages, map[])
    ensures system == LastSystem(messages)
  {
    system, contents := None, [];
    var pendingParts: seq<Part>, pendingIds: seq<string>, activeIds: seq<string> := [], [], [];
    var names: Names := map[];
    for i := 0 to |messages|
      invariant Run(START, messages[..i]) == State(contents, pendingParts, pendingIds, activeIds, names)
      invariant system == LastSystem(messages[..i])
    {
      var message := messages[i];
      assert messages[..i+1][..i] == messages[..i];
      if message.role == "system" {
        system := Some(message.content);
        continue;
      }
      if message.role == "assistant" {
        contents, pendingParts, pendingIds, activeIds :=
          FlushPendingToolResponses(contents, pendingParts, activeIds, pendingIds);
        activeIds, names := CollectActiveToolCallIds(message, names);
        var parts := BuildContentParts(message);
        contents := contents + [Turn("model", parts)];
        continue;
      }
      if message.role == "tool" {
        pendingParts, pendingIds := QueueToolResponsePart(message, activeIds, pendingParts, pendingIds, names);
        continue;
      }
      contents, pendingParts, pendingIds, activeIds :=
        FlushPendingToolResponses(contents, pendingParts, activeIds, pendingIds);
      var role := if message.role == "user" then "user" else "model";
      var parts := BuildContentParts(message);
      contents := contents + [Turn(role, parts)];
    }
    assert messages[..|messages|] == messages;
    RunMatchesTranscript(START, messages);
    LeadingRunIsDropped(messages, map[]);
    contents, pendingParts, pendingIds, activeIds :=
      FlushPendingToolResponses(contents, pendingParts, activeIds, pendingIds);
  }
}
