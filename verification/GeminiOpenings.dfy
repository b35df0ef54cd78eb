/** What stands in the turns that user, assistant and other speaking messages open, told from the messages alone. */
module GeminiOpenings {
  import opened Basics
  import opened Sublists
  import opened GeminiTranscript
  import opened GeminiProtocol

  /** The message is neither a system nor a tool message. */
  predicate Speaks(m: Message) { m.role != "system" && m.role != "tool" }

  /** The turn does not start with a response. */
  predicate Opens(t: Turn) { t.parts == [] || !t.parts[0].FunctionResponse? }

  predicate HasName(c: ToolCall) { c.ToolCall? && c.payload.Some? && c.payload.value.name != "" }

  /** The parts are the calls that have a name, each with its own id, name and arguments, in call order. */
  ghost predicate Emits(parts: seq<Part>, calls: seq<ToolCall>) {
    exists named :: Picks(calls, HasName, named) && |named| == |parts|
                    && forall i :: 0 <= i < |parts| ==> IsCall(parts[i], named[i])
  }

  predicate IsCall(p: Part, c: ToolCall) {
    HasName(c) && p == FunctionCall(c.id, c.payload.value.name, c.payload.value.arguments)
  }

  /** The turn says what the message says: its text when there is any, then an assistant's calls, else an empty text. */
  ghost predicate Says(t: Turn, m: Message) {
    t.role == (if m.role == "user" then "user" else "model")
    && exists text, calls: seq<Part> ::
         t.parts == (if text + calls == [] then [Text("")] else text + calls)
         && text == (if m.content == "" then [] else [Text(m.content)])
         && if m.role == "assistant" then Emits(calls, m.toolCalls) else calls == []
  }

  lemma {:induction false} CallPartsEmit(calls: seq<ToolCall>)
    ensures var named := Filter(calls, HasName);
            |named| == |CallParts(calls)| && forall i :: 0 <= i < |named| ==> IsCall(CallParts(calls)[i], named[i])
  {
    if calls != [] {
      CallPartsEmit(calls[..|calls|-1]);
    }
  }

  lemma {:induction false} CallPartsAreEmitted(calls: seq<ToolCall>)
    ensures Emits(CallParts(calls), calls)
  {
    CallPartsEmit(calls);
    FilterPicks(calls, HasName);
  }

  lemma {:induction false} OpeningTurnSays(m: Message)
    ensures Says(OpeningTurn(m), m) && Opens(OpeningTurn(m))
  {
    CallPartsAreEmitted(m.toolCalls);
    OpeningTurnIsNoResponse(m);
    var text := if m.content == "" then [] else [Text(m.content)];
    var calls := if m.role == "assistant" then CallParts(m.toolCalls) else [];
    assert OpeningTurn(m).parts == if text + calls == [] then [Text("")] else text + calls;
  }

  lemma {:induction false} EmittedOnce(parts: seq<Part>, calls: seq<ToolCall>)
    requires Emits(parts, calls)
    ensures parts == CallParts(calls)
  {
    var named :| Picks(calls, HasName, named) && |named| == |parts|
                 && forall i :: 0 <= i < |parts| ==> IsCall(parts[i], named[i]);
    PicksOnce(calls, HasName, named);
    CallPartsEmit(calls);
    forall i | 0 <= i < |parts| ensures parts[i] == CallParts(calls)[i] {
      assert IsCall(parts[i], named[i]) && IsCall(CallParts(calls)[i], named[i]);
    }
  }

  /** A message can be said in one way only. */
  lemma {:induction false} SaidInOneWay(t: Turn, m: Message)
    requires Says(t, m)
    ensures t == OpeningTurn(m)
  {
    var text, calls: seq<Part> :|
      t.parts == (if text + calls == [] then [Text("")] else text + calls)
      && text == (if m.content == "" then [] else [Text(m.content)])
      && if m.role == "assistant" then Emits(calls, m.toolCalls) else calls == [];
    if m.role == "assistant" {
      EmittedOnce(calls, m.toolCalls);
    }
    assert ContentParts(m) == t.parts;
  }

  lemma {:induction false} OpeningTurnsAreOfSpeakers(ms: seq<Message>)
    ensures var speakers := Filter(ms, Speaks);
            |OpeningTurns(ms)| == |speakers|
            && forall k :: 0 <= k < |speakers| ==> OpeningTurns(ms)[k] == OpeningTurn(speakers[k])
  {
    if ms != [] {
      OpeningTurnsAreOfSpeakers(ms[1..]);
      FilterSplits([ms[0]], ms[1..], Speaks);
      assert [ms[0]] + ms[1..] == ms;
      OneIsFiltered(ms[0], Speaks);
    }
  }

  lemma {:induction false} OneIsFiltered<T>(x: T, keep: T -> bool)
    ensures Filter([x], keep) == if keep(x) then [x] else []
  {
    assert [x][..0] == [] && Filter([x][..0], keep) == [];
  }

  lemma {:induction false} UnansweringFilters(turns: seq<Turn>)
    ensures Unanswering(turns) == Filter(turns, Opens)
  {
    if turns != [] {
      UnansweringFilters(turns[1..]);
      FilterSplits([turns[0]], turns[1..], Opens);
      assert [turns[0]] + turns[1..] == turns;
      OneIsFiltered(turns[0], Opens);
    }
  }

  /**
   Over every message list: the turns that are no responses are as many as the messages
   that are neither system nor tool messages, and the k-th turn says what the k-th message says.
   */
  lemma {:induction false} EveryMessageIsSaid(ms: seq<Message>, names: Names)
    ensures exists speakers, said ::
              Picks(ms, Speaks, speakers) && Picks(Transcript(ms, names), Opens, said) && |said| == |speakers|
              && forall k :: 0 <= k < |said| ==> Says(said[k], speakers[k])
  {
    var turns := Transcript(ms, names);
    var speakers, said := Filter(ms, Speaks), Filter(turns, Opens);
    FilterPicks(ms, Speaks);
    FilterPicks(turns, Opens);
    OpenersSurvive(ms, names);
    UnansweringFilters(turns);
    OpeningTurnsAreOfSpeakers(ms);
    forall k | 0 <= k < |said| ensures Says(said[k], speakers[k]) {
      OpeningTurnSays(speakers[k]);
    }
  }

  /** The content of the system message behind which no other stands; nothing without one. */
  ghost predicate IsSystemText(ms: seq<Message>, text: Option<string>) {
    match text
    case None => forall j :: 0 <= j < |ms| ==> ms[j].role != "system"
    case Some(content) => exists j :: 0 <= j < |ms| && ms[j].role == "system" && ms[j].content == content
                                      && forall k :: j < k < |ms| ==> ms[k].role != "system"
  }

  lemma {:induction false} LastSystemIsTheLast(ms: seq<Message>, text: Option<string>)
    ensures IsSystemText(ms, text) <==> text == LastSystem(ms)
  {
    if ms != [] {
      var n := |ms| - 1;
      assert forall j :: 0 <= j < n ==> ms[..n][j] == ms[j];
      if ms[n].role != "system" {
        LastSystemIsTheLast(ms[..n], text);
      }
    }
  }

  // ---------------------------------------------------------------------
  // What is remembered of the calls
  // ---------------------------------------------------------------------

  predicate HasIdAndPayload(c: ToolCall) { c.ToolCall? && c.id != "" && c.payload.Some? }

  /** The ids to answer are those of the calls with an id and a payload, in call order. */
  lemma {:induction false} CollectedAreListed(calls: seq<ToolCall>)
    ensures exists active: seq<ToolCall> :: Picks(calls, HasIdAndPayload, active) && |active| == |CollectedIds(calls)|
              && forall i :: 0 <= i < |active| ==> active[i].ToolCall? && CollectedIds(calls)[i] == active[i].id
  {
    FilterPicks(calls, HasIdAndPayload);
    CollectedIdsFilter(calls);
  }

  lemma {:induction false} CollectedIdsFilter(calls: seq<ToolCall>)
    ensures var active := Filter(calls, HasIdAndPayload);
            |active| == |CollectedIds(calls)|
            && forall i :: 0 <= i < |active| ==> active[i].ToolCall? && CollectedIds(calls)[i] == active[i].id
  {
    if calls != [] {
      CollectedIdsFilter(calls[..|calls|-1]);
    }
  }

  predicate GivesName(c: ToolCall, id: string) { HasName(c) && c.id == id && id != "" }

  predicate GivesNoName(calls: seq<ToolCall>, id: string) {
    forall j :: 0 <= j < |calls| ==> !GivesName(calls[j], id)
  }

  predicate GivesNameAt(calls: seq<ToolCall>, id: string, name: string, j: int) {
    0 <= j < |calls| && GivesName(calls[j], id) && calls[j].payload.value.name == name
    && GivesNoName(calls[j+1..], id)
  }

  ghost predicate IsLatestName(calls: seq<ToolCall>, id: string, name: string) {
    exists j :: GivesNameAt(calls, id, name, j)
  }

  lemma {:induction false} NextName(calls: seq<ToolCall>, c: ToolCall, id: string, name: string)
    requires if GivesName(c, id) then c.payload.value.name == name else IsLatestName(calls, id, name)
    ensures IsLatestName(calls + [c], id, name)
  {
    var all := calls + [c];
    if GivesName(c, id) {
      assert GivesNameAt(all, id, name, |calls|);
    } else {
      var j :| GivesNameAt(calls, id, name, j);
      assert all[j+1..] == calls[j+1..] + [c];
      assert GivesNameAt(all, id, name, j);
    }
  }

  /** The name remembered for an id is that of the last named call with it, or else the one remembered before. */
  lemma {:induction false} LastNameIsRemembered(calls: seq<ToolCall>, names: Names, id: string)
    ensures var after := CollectedNames(calls, names);
            if GivesNoName(calls, id) then (id in after <==> id in names) && (id in names ==> after[id] == names[id])
            else id in after && IsLatestName(calls, id, after[id])
  {
    if calls != [] {
      var n := |calls| - 1;
      LastNameIsRemembered(calls[..n], names, id);
      assert calls[..n] + [calls[n]] == calls;
      assert GivesNoName(calls, id) <==> GivesNoName(calls[..n], id) && !GivesName(calls[n], id);
      if !GivesNoName(calls, id) {
        NextName(calls[..n], calls[n], id, CollectedNames(calls, names)[id]);
      }
    }
  }

  /** The calls of all assistant messages, in order. */
  function CallsOf(ms: seq<Message>): seq<ToolCall> {
    if ms == [] then []
    else CallsOf(ms[..|ms|-1]) + if ms[|ms|-1].role == "assistant" then ms[|ms|-1].toolCalls else []
  }

  lemma {:induction false} CollectedOfBoth(a: seq<ToolCall>, b: seq<ToolCall>, names: Names)
    ensures CollectedNames(a + b, names) == CollectedNames(b, CollectedNames(a, names))
  {
    if b == [] {
      assert a + b == a;
    } else {
      CollectedOfBoth(a, b[..|b|-1], names);
      assert (a + b)[..|a + b| - 1] == a + b[..|b|-1];
    }
  }

  lemma {:induction false} NamesAreCollected(ms: seq<Message>, names: Names)
    ensures NamesAfter(ms, names) == CollectedNames(CallsOf(ms), names)
  {
    if ms != [] {
      var front, last := ms[..|ms|-1], ms[|ms|-1];
      NamesAreCollected(front, names);
      if last.role == "assistant" {
        CollectedOfBoth(CallsOf(front), last.toolCalls, names);
      } else {
        assert CallsOf(front) + [] == CallsOf(front);
      }
    }
  }

  /** Over all messages so far, an id goes by the name of the latest named call with it, if there was any. */
  lemma {:induction false} LatestNameCounts(ms: seq<Message>, id: string)
    ensures var names := NamesAfter(ms, map[]);
            if GivesNoName(CallsOf(ms), id) then id !in names
            else id in names && IsLatestName(CallsOf(ms), id, names[id])
  {
    NamesAreCollected(ms, map[]);
    LastNameIsRemembered(CallsOf(ms), map[], id);
  }
}
