/**
 Accumulating a streamed reply (adapters/llm/base.py): chunks arrive one at a time, each
 with fragments of the text and of several tool calls told apart by their index.
 */
module StreamAccumulation {
  import opened Basics
  import opened Sublists
  import CommaText
  import ToolContent

  /** The id of a fragment may be missing, an explicit null, or a text. */
  datatype IdField = NoId | NullId | Id(text: string)

  /** The place of a tool call in the reply. */
  datatype Slot = Slot(index: int)

  /** One fragment of a tool call; a missing index counts as 0, a missing name or arguments text as empty. */
  datatype Delta = Delta(index: Option<int>, id: IdField, name: string, arguments: string)

  datatype Chunk = Chunk(content: string, reasoning: string, calls: seq<Delta>)

  /** The arguments of a call are text, or the value that text was decoded to. */
  datatype Call = Call(id: Option<string>, name: string, arguments: ToolContent.Value)

  /** json.loads: no result when the text is not JSON. */
  type Loads = string -> Option<ToolContent.Value>

  /** Calls written into the text of a reply, as one of the text parsers finds them. */
  type FindCalls = string -> seq<Call>

  /** What the adapter noted while it streamed. */
  datatype Adapter = Adapter(
    lastUsage: Option<ToolContent.Value>, lastFinishReason: Option<string>, model: Option<string>)

  datatype Response = Response(
    content: string, toolCalls: seq<Call>, finishReason: string, usage: ToolContent.Value, model: string,
    reasoning: Option<string>)

  function Index(d: Delta): Slot { Slot(if d.index == None then 0 else d.index.value) }

  predicate HasId(d: Delta) { d.id.Id? && d.id.text != "" }

  // ---------------------------------------------------------------------
  // What the stream says about one call
  // ---------------------------------------------------------------------

  /** The fragments of one index, in their order. */
  function Mine(ds: seq<Delta>, i: Slot): seq<Delta> {
    if ds == [] then []
    else
      var last := ds[|ds|-1];
      Mine(ds[..|ds|-1], i) + if Index(last) == i then [last] else []
  }

  /** The last id that is not empty; without one, null if the first fragment says so and else the empty text. */
  function CallId(mine: seq<Delta>): Option<string>
    requires mine != []
  {
    var last := mine[|mine|-1];
    if HasId(last) then Some(last.id.text)
    else if |mine| > 1 then CallId(mine[..|mine|-1])
    else if last.id.NullId? then None else Some("")
  }

  /** The last name that is not empty. */
  function CallName(mine: seq<Delta>): string {
    if mine == [] then ""
    else if mine[|mine|-1].name != "" then mine[|mine|-1].name
    else CallName(mine[..|mine|-1])
  }

  function CallArguments(mine: seq<Delta>): string {
    if mine == [] then "" else CallArguments(mine[..|mine|-1]) + mine[|mine|-1].arguments
  }

  function CallOf(mine: seq<Delta>): Call
    requires mine != []
  {
    Call(CallId(mine), CallName(mine), ToolContent.Str(CallArguments(mine)))
  }

  function Indices(ds: seq<Delta>): set<Slot> {
    if ds == [] then {} else Indices(ds[..|ds|-1]) + {Index(ds[|ds|-1])}
  }

  lemma {:induction false} MineIsAnyone(ds: seq<Delta>, i: Slot)
    ensures Mine(ds, i) != [] <==> i in Indices(ds)
  {
    if ds != [] {
      MineIsAnyone(ds[..|ds|-1], i);
    }
  }

  ghost function EntryAt(ds: seq<Delta>, i: Slot): Call
    requires i in Indices(ds)
  {
    MineIsAnyone(ds, i);
    CallOf(Mine(ds, i))
  }

  // ---------------------------------------------------------------------
  // The response object
  // ---------------------------------------------------------------------

  function Content(chunks: seq<Chunk>): string {
    if chunks == [] then "" else Content(chunks[..|chunks|-1]) + chunks[|chunks|-1].content
  }

  function Reasoning(chunks: seq<Chunk>): string {
    if chunks == [] then "" else Reasoning(chunks[..|chunks|-1]) + chunks[|chunks|-1].reasoning
  }

  function Deltas(chunks: seq<Chunk>): seq<Delta> {
    if chunks == [] then [] else Deltas(chunks[..|chunks|-1]) + chunks[|chunks|-1].calls
  }

  function Joined(parts: seq<string>): string {
    if parts == [] then "" else Joined(parts[..|parts|-1]) + parts[|parts|-1]
  }

  /** The entry of a call once one more fragment has arrived. */
  function Grown(e: Call, d: Delta): Call
    requires e.arguments.Str?
  {
    Call(if HasId(d) then Some(d.id.text) else e.id, if d.name != "" then d.name else e.name,
         ToolContent.Str(e.arguments.s + d.arguments))
  }

  lemma {:induction false} OneMoreChunk(chunks: seq<Chunk>, chunk: Chunk)
    ensures Content(chunks + [chunk]) == Content(chunks) + chunk.content
    ensures Reasoning(chunks + [chunk]) == Reasoning(chunks) + chunk.reasoning
    ensures Deltas(chunks + [chunk]) == Deltas(chunks) + chunk.calls
  {}

  lemma {:induction false} OneMorePart(parts: seq<string>, part: string)
    ensures Joined(if part != "" then parts + [part] else parts) == Joined(parts) + part
  {}

  /** The entry a first fragment opens. */
  function Opened(d: Delta): Call {
    Call(if d.id.NullId? then None else if d.id.NoId? then Some("") else Some(d.id.text), "", ToolContent.Str(""))
  }

  lemma {:induction false} OneMoreOfMine(mine: seq<Delta>, d: Delta)
    ensures CallOf(mine + [d]) == Grown(if mine == [] then Opened(d) else CallOf(mine), d)
  {
    var more := mine + [d];
    assert more[..|more|-1] == mine;
    assert CallArguments(more) == CallArguments(mine) + d.arguments;
    assert CallName(more) == if d.name != "" then d.name else CallName(mine);
    assert CallId(more) == if HasId(d) then Some(d.id.text) else if mine != [] then CallId(mine) else Opened(d).id;
  }

  lemma {:induction false} MineGrows(ds: seq<Delta>, d: Delta, i: Slot)
    ensures Mine(ds + [d], i) == if i == Index(d) then Mine(ds, i) + [d] else Mine(ds, i)
    ensures i in Indices(ds + [d]) <==> i in Indices(ds) || i == Index(d)
  {}

  ghost predicate TextsOnly(accum: map<Slot, Call>) { forall i <- accum :: accum[i].arguments.Str? }

  /** The entries once one more fragment has arrived: only that of its own index changes. */
  ghost function Extended(accum: map<Slot, Call>, d: Delta): map<Slot, Call>
    requires TextsOnly(accum)
  {
    accum[Index(d) := Grown(if Index(d) in accum then accum[Index(d)] else Opened(d), d)]
  }

  lemma {:induction false} OneMoreAt(ds: seq<Delta>, d: Delta, i: Slot)
    ensures i in Indices(ds + [d]) <==> i in Indices(ds) || i == Index(d)
    ensures i in Indices(ds + [d]) ==>
              EntryAt(ds + [d], i)
              == if i != Index(d) then EntryAt(ds, i)
                 else Grown(if i in Indices(ds) then EntryAt(ds, i) else Opened(d), d)
  {
    MineGrows(ds, d, i);
    MineIsAnyone(ds, i);
    if i == Index(d) {
      OneMoreOfMine(Mine(ds, i), d);
    }
  }

  /** The entries after all fragments. */
  ghost function Accumulated(ds: seq<Delta>): (accum: map<Slot, Call>)
    ensures TextsOnly(accum)
  {
    if ds == [] then map[] else Extended(Accumulated(ds[..|ds|-1]), ds[|ds|-1])
  }

  /** An entry is what the index's own fragments add up to. */
  lemma {:induction false} EntriesAreOwn(ds: seq<Delta>, i: Slot)
    ensures i in Accumulated(ds) <==> i in Indices(ds)
    ensures i in Indices(ds) ==> Accumulated(ds)[i] == EntryAt(ds, i)
  {
    if ds != [] {
      var front, last := ds[..|ds|-1], ds[|ds|-1];
      EntriesAreOwn(front, i);
      EntriesAreOwn(front, Index(last));
      assert ds == front + [last];
      OneMoreAt(front, last, i);
    }
  }

  lemma {:induction false} NextFragment(before: seq<Delta>, calls: seq<Delta>, k: nat)
    requires k < |calls|
    ensures Accumulated(before + calls[..k+1]) == Extended(Accumulated(before + calls[..k]), calls[k])
  {
    var more := before + calls[..k+1];
    assert more[..|more|-1] == before + calls[..k] && more[|more|-1] == calls[k];
  }

  class StreamResponse {
    const loads: Loads
    var contentParts: seq<string>
    var reasoningParts: seq<string>
    var toolCallAccum: map<Slot, Call>
    var toolCalls: seq<Call>
    var usage: ToolContent.Value
    var finishReason: Option<string>
    var model: Option<string>
    /** The chunks received so far. */
    ghost var seen: seq<Chunk>

    /** The parts and entries say what the chunks received so far add up to. */
    ghost predicate Valid()
      reads this
    {
      Joined(contentParts) == Content(seen) && Joined(reasoningParts) == Reasoning(seen)
      && toolCallAccum == Accumulated(Deltas(seen))
    }

    constructor (loads: Loads)
      ensures Valid() && seen == [] && toolCalls == [] && this.loads == loads
    {
      this.loads := loads;
      contentParts, reasoningParts, toolCallAccum, toolCalls, seen := [], [], map[], [], [];
      usage, finishReason, model := ToolContent.Dict([]), None, None;
    }

    method Receive(tc: Delta)
      requires TextsOnly(toolCallAccum)
      modifies this`toolCallAccum
      ensures toolCallAccum == Extended(old(toolCallAccum), tc)
    {
      var idx := Index(tc);
      if idx !in toolCallAccum {
        toolCallAccum := toolCallAccum[idx := Opened(tc)];
      }
      var entry := toolCallAccum[idx];
      if HasId(tc) {
        entry := entry.(id := Some(tc.id.text));
      }
      if tc.name != "" {
        entry := entry.(name := tc.name);
      }
      if tc.arguments != "" {
        entry := entry.(arguments := ToolContent.Str(entry.arguments.s + tc.arguments));
      }
      assert tc.arguments == "" ==> entry.arguments.s + tc.arguments == entry.arguments.s;
      toolCallAccum := toolCallAccum[idx := entry];
    }

    method ReceiveAll(calls: seq<Delta>, ghost before: seq<Delta>)
      requires toolCallAccum == Accumulated(before)
      modifies this`toolCallAccum
      ensures toolCallAccum == Accumulated(before + calls)
    {
      assert before + calls[..0] == before;
      for k := 0 to |calls|
        invariant toolCallAccum == Accumulated(before + calls[..k])
      {
        NextFragment(before, calls, k);
        Receive(calls[k]);
      }
      assert calls[..|calls|] == calls;
    }

    method ReceiveText(chunk: Chunk)
      modifies this`contentParts, this`reasoningParts
      ensures Joined(contentParts) == old(Joined(contentParts)) + chunk.content
      ensures Joined(reasoningParts) == old(Joined(reasoningParts)) + chunk.reasoning
    {
      OneMorePart(contentParts, chunk.content);
      OneMorePart(reasoningParts, chunk.reasoning);
      if chunk.content != "" {
        contentParts := contentParts + [chunk.content];
      }
      if chunk.reasoning != "" {
        reasoningParts := reasoningParts + [chunk.reasoning];
      }
    }

    method Next(chunk: Chunk)
      requires Valid()
      modifies this
      ensures Valid() && seen == old(seen) + [chunk] && toolCalls == old(toolCalls)
    {
      OneMoreChunk(seen, chunk);
      ReceiveText(chunk);
      ReceiveAll(chunk.calls, Deltas(seen));
      seen := seen + [chunk];
    }

    method Decode(idx: Slot)
      requires idx in toolCallAccum
      modifies this`toolCallAccum, this`toolCalls
      ensures toolCallAccum == old(toolCallAccum)[idx := Loaded(loads, old(toolCallAccum)[idx])]
      ensures toolCalls == old(toolCalls) + [Loaded(loads, old(toolCallAccum)[idx])]
    {
      var tc := toolCallAccum[idx];
      if tc.arguments.Str? {
        var decoded := loads(tc.arguments.s);
        if decoded.Some? {
          tc := tc.(arguments := decoded.value);
        }
      }
      toolCallAccum := toolCallAccum[idx := tc];
      toolCalls := toolCalls + [tc];
    }

    /** The calls in index order, each with its arguments decoded where they are JSON. */
    method DecodeAll()
      modifies this`toolCallAccum, this`toolCalls
      ensures toolCalls == CallsInOrder(loads, old(toolCallAccum))
      ensures toolCallAccum == LoadedAt(loads, old(toolCallAccum), toolCallAccum.Keys)
    {
      ghost var accum := toolCallAccum;
      var keys := SortKeys(toolCallAccum.Keys);
      toolCalls := [];
      LoadedEnds(loads, accum, keys);
      for n := 0 to |keys|
        invariant toolCallAccum == LoadedAt(loads, accum, Members(keys[..n]))
        invariant toolCalls == LoadedCalls(loads, accum, keys[..n])
      {
        NotYetLoaded(loads, accum, keys, n);
        Decode(keys[n]);
      }
    }

    method Finalize(adapter: Option<Adapter>)
      modifies this`toolCallAccum, this`toolCalls, this`usage, this`finishReason, this`model
      ensures toolCalls == CallsInOrder(loads, old(toolCallAccum))
      ensures toolCallAccum == LoadedAt(loads, old(toolCallAccum), toolCallAccum.Keys)
      ensures adapter == None ==>
                usage == old(usage) && finishReason == old(finishReason) && model == old(model)
      ensures adapter.Some? ==>
                usage == UsageOf(adapter.value) && finishReason == adapter.value.lastFinishReason
                && model == adapter.value.model
    {
      DecodeAll();
      if adapter.Some? {
        usage, finishReason, model := UsageOf(adapter.value), adapter.value.lastFinishReason, adapter.value.model;
      }
    }

    /** The streamed calls, or when there are none those found in the reasoning or else in the content. */
    function ToResponse(find: FindCalls): Response
      reads this
    {
      var content, reasoning := Joined(contentParts), Joined(reasoningParts);
      Response(content, if toolCalls != [] then toolCalls else EmbeddedCalls(find, [reasoning, content]),
               OrElse(finishReason, "stop"), usage, OrElse(model, "unknown"),
               if reasoning != "" then Some(reasoning) else None)
    }
  }

  function UsageOf(a: Adapter): ToolContent.Value {
    if a.lastUsage == None then ToolContent.Dict([]) else a.lastUsage.value
  }

  function OrElse(text: Option<string>, default_: string): string {
    if text == None || text.value == "" then default_ else text.value
  }

  /** _parse_embedded_tool_calls: what the first source holds that is not blank and holds any. */
  function EmbeddedCalls(find: FindCalls, sources: seq<string>): seq<Call> {
    if sources == [] then []
    else if CommaText.Strip(sources[0]) != "" && find(sources[0]) != [] then find(sources[0])
    else EmbeddedCalls(find, sources[1..])
  }

  function Loaded(loads: Loads, c: Call): Call {
    if c.arguments.Str? && loads(c.arguments.s).Some? then c.(arguments := loads(c.arguments.s).value) else c
  }

  predicate Increasing(keys: seq<Slot>) { forall i, j :: 0 <= i < j < |keys| ==> keys[i].index < keys[j].index }

  predicate IsGreatest(s: set<Slot>, x: Slot) { x in s && forall y <- s :: y.index <= x.index }

  lemma {:induction false} GreatestExists(s: set<Slot>)
    requires |s| > 0
    ensures exists x :: IsGreatest(s, x)
  {
    var x :| x in s;
    assert forall z <- s :: z == x || z in s - {x};
    if |s - {x}| > 0 {
      GreatestExists(s - {x});
      var y :| IsGreatest(s - {x}, y);
      assert IsGreatest(s, if x.index < y.index then y else x);
    } else {
      assert s - {x} == {};
      assert IsGreatest(s, x);
    }
  }

  /** The slots in increasing order. */
  ghost function Sorted(s: set<Slot>): (keys: seq<Slot>)
    ensures Increasing(keys) && forall x :: x in keys <==> x in s
  {
    if |s| == 0 then []
    else
      GreatestExists(s);
      var x :| IsGreatest(s, x);
      Sorted(s - {x}) + [x]
  }

  /** There is only one such order. */
  lemma {:induction false} OrderIsUnique(a: seq<Slot>, b: seq<Slot>)
    requires Increasing(a) && Increasing(b) && forall x :: x in a <==> x in b
    ensures a == b
  {
    if a == [] {
      assert forall k :: 0 <= k < |b| ==> b[k] in b;
    } else {
      assert a[0] in a && a[0] in b;
      var m, n := |a| - 1, |b| - 1;
      assert a[m] in b && b[n] in a;
      assert a[m] == b[n];
      forall x ensures x in a[..m] <==> x in b[..n] {
        assert x in a[..m] <==> x in a && x != a[m];
        assert x in b[..n] <==> x in b && x != b[n];
      }
      OrderIsUnique(a[..m], b[..n]);
      assert a == a[..m] + [a[m]] && b == b[..n] + [b[n]];
    }
  }

  method SortKeys(s: set<Slot>) returns (keys: seq<Slot>)
    ensures keys == Sorted(s)
  {
    keys := [];
    var left := s;
    while |left| > 0
      invariant Increasing(keys) && left <= s
      invariant forall x :: x in keys <==> x in s - left
      invariant forall x <- left, k :: 0 <= k < |keys| ==> x.index < keys[k].index
      decreases left
    {
      GreatestExists(left);
      var x :| x in left && forall y <- left :: y.index <= x.index;
      keys := [x] + keys;
      left := left - {x};
    }
    OrderIsUnique(keys, Sorted(s));
  }

  /** The calls of the listed indices, decoded. */
  ghost function LoadedCalls(loads: Loads, accum: map<Slot, Call>, keys: seq<Slot>): (calls: seq<Call>)
    requires forall k <- keys :: k in accum
    ensures |calls| == |keys| && forall n :: 0 <= n < |keys| ==> calls[n] == Loaded(loads, accum[keys[n]])
  {
    if keys == [] then []
    else LoadedCalls(loads, accum, keys[..|keys|-1]) + [Loaded(loads, accum[keys[|keys|-1]])]
  }

  ghost function CallsInOrder(loads: Loads, accum: map<Slot, Call>): seq<Call> {
    LoadedCalls(loads, accum, Sorted(accum.Keys))
  }

  ghost function Members(keys: seq<Slot>): set<Slot> { set k | k in keys }

  ghost function LoadedAt(loads: Loads, accum: map<Slot, Call>, keys: set<Slot>): map<Slot, Call> {
    map i | i in accum :: if i in keys then Loaded(loads, accum[i]) else accum[i]
  }

  lemma {:induction false} NotYetLoaded(loads: Loads, accum: map<Slot, Call>, keys: seq<Slot>, n: nat)
    requires Increasing(keys) && n < |keys| && keys[n] in accum
    requires forall k <- keys :: k in accum
    ensures LoadedAt(loads, accum, Members(keys[..n]))[keys[n]] == accum[keys[n]]
    ensures LoadedCalls(loads, accum, keys[..n+1])
            == LoadedCalls(loads, accum, keys[..n]) + [Loaded(loads, accum[keys[n]])]
    ensures LoadedAt(loads, accum, Members(keys[..n+1]))
            == LoadedAt(loads, accum, Members(keys[..n]))[keys[n] := Loaded(loads, accum[keys[n]])]
  {
    assert keys[n] !in keys[..n];
    assert keys[..n+1] == keys[..n] + [keys[n]];
    assert keys[..n+1][..n] == keys[..n];
    assert Members(keys[..n+1]) == Members(keys[..n]) + {keys[n]};
  }

  lemma {:induction false} LoadedEnds(loads: Loads, accum: map<Slot, Call>, keys: seq<Slot>)
    requires forall k :: k in keys <==> k in accum
    ensures LoadedAt(loads, accum, Members(keys[..0])) == accum && LoadedCalls(loads, accum, keys[..0]) == []
    ensures Members(keys[..|keys|]) == accum.Keys && keys[..|keys|] == keys
    ensures forall s :: LoadedAt(loads, accum, s).Keys == accum.Keys
  {}

  /** The reply, as a function of the joined texts and of what each call's own fragments add up to. */
  ghost function Reply(find: FindCalls, loads: Loads, adapter: Adapter, chunks: seq<Chunk>): Response {
    var content, reasoning := Content(chunks), Reasoning(chunks);
    var calls := CallsInOrder(loads, Accumulated(Deltas(chunks)));
    Response(content, if calls != [] then calls else EmbeddedCalls(find, [reasoning, content]),
             OrElse(adapter.lastFinishReason, "stop"), UsageOf(adapter), OrElse(adapter.model, "unknown"),
             if reasoning != "" then Some(reasoning) else None)
  }

  // ---------------------------------------------------------------------
  // The reply, field by field
  // ---------------------------------------------------------------------

  function ContentDeltas(chunks: seq<Chunk>): seq<string> {
    seq(|chunks|, i requires 0 <= i < |chunks| => chunks[i].content)
  }

  function ReasoningDeltas(chunks: seq<Chunk>): seq<string> {
    seq(|chunks|, i requires 0 <= i < |chunks| => chunks[i].reasoning)
  }

  function ArgumentTexts(mine: seq<Delta>): seq<string> {
    seq(|mine|, i requires 0 <= i < |mine| => mine[i].arguments)
  }

  predicate Fragments(chunks: seq<Chunk>) { exists k :: 0 <= k < |chunks| && chunks[k].calls != [] }

  /** The last name that is not empty, or the empty text. */
  ghost predicate IsLastName(mine: seq<Delta>, name: string) {
    if forall j :: 0 <= j < |mine| ==> mine[j].name == "" then name == ""
    else exists k :: 0 <= k < |mine| && mine[k].name == name && name != ""
                     && forall j :: k < j < |mine| ==> mine[j].name == ""
  }

  /** The last id that is not empty; without one, null if the first fragment says so and else the empty text. */
  ghost predicate IsLastId(mine: seq<Delta>, id: Option<string>)
    requires mine != []
  {
    if forall j :: 0 <= j < |mine| ==> !HasId(mine[j]) then id == if mine[0].id.NullId? then None else Some("")
    else exists k :: 0 <= k < |mine| && HasId(mine[k]) && id == Some(mine[k].id.text)
                     && forall j :: k < j < |mine| ==> !HasId(mine[j])
  }

  /** The call that the fragments make up: its arguments are decoded exactly when they are JSON. */
  ghost predicate IsCallOf(mine: seq<Delta>, loads: Loads, c: Call)
    requires mine != []
  {
    var text := Joined(ArgumentTexts(mine));
    IsLastId(mine, c.id) && IsLastName(mine, c.name)
    && c.arguments == if loads(text).Some? then loads(text).value else ToolContent.Str(text)
  }

  function AtSlot(i: Slot): Delta -> bool { (d: Delta) => Index(d) == i }

  /** The calls are those of the indices that keys lists, each made of its own fragments. */
  ghost predicate AreCalls(ds: seq<Delta>, loads: Loads, calls: seq<Call>, keys: seq<Slot>) {
    Increasing(keys) && (forall x :: x in keys <==> exists k :: 0 <= k < |ds| && Index(ds[k]) == x)
    && |calls| == |keys|
    && forall n :: 0 <= n < |calls| ==> IsCallAt(ds, loads, keys[n], calls[n])
  }

  ghost predicate IsCallAt(ds: seq<Delta>, loads: Loads, i: Slot, c: Call) {
    exists mine :: mine != [] && Picks(ds, AtSlot(i), mine) && IsCallOf(mine, loads, c)
  }

  /** The calls of the reply: those streamed, else those found in the reasoning, else those found in the content. */
  ghost predicate AreReplyCalls(find: FindCalls, loads: Loads, chunks: seq<Chunk>, calls: seq<Call>) {
    var content, reasoning := Joined(ContentDeltas(chunks)), Joined(ReasoningDeltas(chunks));
    if Fragments(chunks) then exists keys :: AreCalls(Deltas(chunks), loads, calls, keys)
    else if CommaText.Strip(reasoning) != "" && find(reasoning) != [] then calls == find(reasoning)
    else if CommaText.Strip(content) != "" then calls == find(content)
    else calls == []
  }

  /** What a reply has to be, field by field. */
  ghost predicate IsReply(find: FindCalls, loads: Loads, adapter: Adapter, chunks: seq<Chunk>, response: Response) {
    var reasoning := Joined(ReasoningDeltas(chunks));
    response.content == Joined(ContentDeltas(chunks))
    && response.reasoning == (if reasoning == "" then None else Some(reasoning))
    && response.finishReason == Noted(adapter.lastFinishReason, "stop")
    && response.usage == (match adapter.lastUsage case Some(u) => u case None => ToolContent.Dict([]))
    && response.model == Noted(adapter.model, "unknown")
    && AreReplyCalls(find, loads, chunks, response.toolCalls)
  }

  /** What was noted, where that is some text. */
  function Noted(text: Option<string>, missing: string): string {
    match text
    case None => missing
    case Some(t) => if |t| > 0 then t else missing
  }

  lemma {:induction false} DeltasAreJoined(chunks: seq<Chunk>)
    ensures Content(chunks) == Joined(ContentDeltas(chunks)) && Reasoning(chunks) == Joined(ReasoningDeltas(chunks))
  {
    if chunks != [] {
      var front := chunks[..|chunks|-1];
      DeltasAreJoined(front);
      assert ContentDeltas(chunks)[..|chunks|-1] == ContentDeltas(front);
      assert ReasoningDeltas(chunks)[..|chunks|-1] == ReasoningDeltas(front);
    }
  }

  lemma {:induction false} ArgumentsAreJoined(mine: seq<Delta>)
    ensures CallArguments(mine) == Joined(ArgumentTexts(mine))
  {
    if mine != [] {
      ArgumentsAreJoined(mine[..|mine|-1]);
      assert ArgumentTexts(mine)[..|mine|-1] == ArgumentTexts(mine[..|mine|-1]);
    }
  }

  lemma {:induction false} NameIsTheLast(mine: seq<Delta>)
    ensures IsLastName(mine, CallName(mine))
  {
    if mine != [] {
      var front := mine[..|mine|-1];
      NameIsTheLast(front);
      assert forall j :: 0 <= j < |front| ==> front[j] == mine[j];
    }
  }

  lemma {:induction false} IdIsTheLast(mine: seq<Delta>)
    requires mine != []
    ensures IsLastId(mine, CallId(mine))
  {
    if |mine| > 1 {
      var front := mine[..|mine|-1];
      IdIsTheLast(front);
      assert forall j :: 0 <= j < |front| ==> front[j] == mine[j];
    }
  }

  lemma {:induction false} MineIsFiltered(ds: seq<Delta>, i: Slot)
    ensures Mine(ds, i) == Filter(ds, AtSlot(i))
  {
    if ds != [] {
      MineIsFiltered(ds[..|ds|-1], i);
    }
  }

  lemma {:induction false} IndicesAreFound(ds: seq<Delta>, x: Slot)
    ensures x in Indices(ds) <==> exists k :: 0 <= k < |ds| && Index(ds[k]) == x
  {
    if ds != [] {
      var n := |ds| - 1;
      IndicesAreFound(ds[..n], x);
      assert forall k :: 0 <= k < n ==> ds[..n][k] == ds[k];
    }
  }

  lemma {:induction false} StreamedCall(ds: seq<Delta>, loads: Loads, i: Slot)
    requires i in Indices(ds)
    ensures i in Accumulated(ds) && IsCallAt(ds, loads, i, Loaded(loads, Accumulated(ds)[i]))
  {
    var mine := Mine(ds, i);
    EntriesAreOwn(ds, i);
    MineIsAnyone(ds, i);
    MineIsFiltered(ds, i);
    FilterPicks(ds, AtSlot(i));
    ArgumentsAreJoined(mine);
    NameIsTheLast(mine);
    IdIsTheLast(mine);
    assert IsCallOf(mine, loads, Loaded(loads, CallOf(mine)));
  }

  lemma {:induction false} StreamedCalls(ds: seq<Delta>, loads: Loads)
    ensures AreCalls(ds, loads, CallsInOrder(loads, Accumulated(ds)), Sorted(Accumulated(ds).Keys))
    ensures CallsInOrder(loads, Accumulated(ds)) == [] <==> ds == []
  {
    var accum := Accumulated(ds);
    var keys := Sorted(accum.Keys);
    forall x
      ensures x in accum <==> x in Indices(ds)
      ensures x in Indices(ds) <==> exists k :: 0 <= k < |ds| && Index(ds[k]) == x
    {
      EntriesAreOwn(ds, x);
      IndicesAreFound(ds, x);
    }
    forall n | 0 <= n < |keys| ensures IsCallAt(ds, loads, keys[n], CallsInOrder(loads, accum)[n]) {
      assert keys[n] in keys;
      StreamedCall(ds, loads, keys[n]);
    }
    if ds != [] {
      assert Index(ds[0]) in keys;
    }
  }

  lemma {:induction false} MoreFragments(chunks: seq<Chunk>, c: Chunk)
    ensures Fragments(chunks + [c]) <==> Fragments(chunks) || c.calls != []
  {
    var all := chunks + [c];
    assert all[|chunks|] == c && forall k :: 0 <= k < |chunks| ==> all[k] == chunks[k];
  }

  lemma {:induction false} NoFragmentsNoDeltas(chunks: seq<Chunk>)
    ensures |Deltas(chunks)| > 0 <==> Fragments(chunks)
  {
    if chunks != [] {
      var front, last := chunks[..|chunks|-1], chunks[|chunks|-1];
      NoFragmentsNoDeltas(front);
      MoreFragments(front, last);
      assert front + [last] == chunks;
      assert |Deltas(chunks)| == |Deltas(front)| + |last.calls|;
    }
  }

  lemma {:induction false} EmbeddedOfTwo(find: FindCalls, first: string, second: string)
    ensures EmbeddedCalls(find, [first, second]) ==
            if CommaText.Strip(first) != "" && find(first) != [] then find(first)
            else if CommaText.Strip(second) != "" then find(second)
            else []
  {
    assert [first, second][1..] == [second] && [second][1..] == [];
    assert EmbeddedCalls(find, [second]) == if CommaText.Strip(second) != "" then find(second) else [];
  }

  lemma {:induction false} ReplyIsTheReply(find: FindCalls, loads: Loads, adapter: Adapter, chunks: seq<Chunk>)
    ensures IsReply(find, loads, adapter, chunks, Reply(find, loads, adapter, chunks))
  {
    DeltasAreJoined(chunks);
    StreamedCalls(Deltas(chunks), loads);
    NoFragmentsNoDeltas(chunks);
    EmbeddedOfTwo(find, Reasoning(chunks), Content(chunks));
    assert AreReplyCalls(find, loads, chunks, Reply(find, loads, adapter, chunks).toolCalls);
  }

  /** The default chat: consume the stream, finalize, hand over the reply. */
  method Chat(find: FindCalls, loads: Loads, adapter: Adapter, chunks: seq<Chunk>) returns (response: Response)
    ensures IsReply(find, loads, adapter, chunks, response)
    ensures response == Reply(find, loads, adapter, chunks)
  {
    var stream := new StreamResponse(loads);
    for k := 0 to |chunks|
      invariant stream.Valid() && stream.seen == chunks[..k] && fresh(stream) && stream.loads == loads
    {
      stream.Next(chunks[k]);
      assert chunks[..k+1] == chunks[..k] + [chunks[k]];
    }
    assert chunks[..|chunks|] == chunks;
    stream.Finalize(Some(adapter));
    response := stream.ToResponse(find);
    ReplyIsTheReply(find, loads, adapter, chunks);
  }

  // ---------------------------------------------------------------------
  // What does not matter
  // ---------------------------------------------------------------------

  /** c holds the fragments of a and of b, both in their own order, mixed in any way. */
  ghost predicate Interleaving(a: seq<Delta>, b: seq<Delta>, c: seq<Delta>) {
    if c == [] then a == [] && b == []
    else
      (a != [] && a[|a|-1] == c[|c|-1] && Interleaving(a[..|a|-1], b, c[..|c|-1]))
      || (b != [] && b[|b|-1] == c[|c|-1] && Interleaving(a, b[..|b|-1], c[..|c|-1]))
  }

  lemma {:induction false} InterleavingKeepsOwn(a: seq<Delta>, b: seq<Delta>, c: seq<Delta>, i: Slot)
    requires Interleaving(a, b, c) && (i !in Indices(a) || i !in Indices(b))
    ensures Mine(c, i) == Mine(a, i) + Mine(b, i)
    ensures i in Indices(c) <==> i in Indices(a) || i in Indices(b)
    decreases |c|
  {
    MineIsAnyone(a, i);
    MineIsAnyone(b, i);
    MineIsAnyone(c, i);
    if c != [] {
      if a != [] && a[|a|-1] == c[|c|-1] && Interleaving(a[..|a|-1], b, c[..|c|-1]) {
        assert a == a[..|a|-1] + [a[|a|-1]];
        InterleavingKeepsOwn(a[..|a|-1], b, c[..|c|-1], i);
      } else {
        assert b == b[..|b|-1] + [b[|b|-1]];
        InterleavingKeepsOwn(a, b[..|b|-1], c[..|c|-1], i);
      }
    }
  }

  lemma {:induction false} InterleavingAt(a: seq<Delta>, b: seq<Delta>, c: seq<Delta>, i: Slot)
    requires Interleaving(a, b, c) && Indices(a) !! Indices(b)
    ensures i in Accumulated(c) <==> i in Accumulated(a) || i in Accumulated(b)
    ensures i in Accumulated(c) ==>
              Accumulated(c)[i] == if i in Accumulated(b) then Accumulated(b)[i] else Accumulated(a)[i]
  {
    EntriesAreOwn(a, i);
    EntriesAreOwn(b, i);
    EntriesAreOwn(c, i);
    InterleavingKeepsOwn(a, b, c, i);
    MineIsAnyone(a, i);
    MineIsAnyone(b, i);
    assert Mine(c, i) == if i in Indices(b) then Mine(b, i) else Mine(a, i);
  }

  /**
   Fragments of different calls may interleave in any way: the result is that of the
   calls streamed apart.
   */
  lemma {:induction false} InterleavingIsIrrelevant(a: seq<Delta>, b: seq<Delta>, c: seq<Delta>)
    requires Interleaving(a, b, c) && Indices(a) !! Indices(b)
    ensures Accumulated(c) == Accumulated(a) + Accumulated(b)
  {
    var mixed, apart := Accumulated(c), Accumulated(a) + Accumulated(b);
    forall i ensures i in mixed <==> i in apart {
      InterleavingAt(a, b, c, i);
    }
    forall i | i in mixed ensures mixed[i] == apart[i] {
      InterleavingAt(a, b, c, i);
    }
  }

  /** The tool calls depend on each index's own fragments only. */
  lemma {:induction false} OnlyOwnFragmentsMatter(loads: Loads, a: seq<Delta>, b: seq<Delta>)
    requires forall i :: Mine(a, i) == Mine(b, i)
    ensures CallsInOrder(loads, Accumulated(a)) == CallsInOrder(loads, Accumulated(b))
  {
    var x, y := Accumulated(a), Accumulated(b);
    forall i ensures (i in x <==> i in y) && (i in x ==> x[i] == y[i]) {
      OwnFragmentsDecide(a, b, i);
    }
    assert x == y;
  }

  lemma {:induction false} OwnFragmentsDecide(a: seq<Delta>, b: seq<Delta>, i: Slot)
    requires Mine(a, i) == Mine(b, i)
    ensures i in Accumulated(a) <==> i in Accumulated(b)
    ensures i in Accumulated(a) ==> Accumulated(a)[i] == Accumulated(b)[i]
  {
    EntriesAreOwn(a, i);
    EntriesAreOwn(b, i);
    MineIsAnyone(a, i);
    MineIsAnyone(b, i);
  }

  function Merged(xs: seq<Chunk>): Chunk { Chunk(Content(xs), Reasoning(xs), Deltas(xs)) }

  lemma {:induction false} MergedPair(a: Chunk, b: Chunk)
    ensures Merged([a, b]) == Chunk(a.content + b.content, a.reasoning + b.reasoning, a.calls + b.calls)
  {
    var pair := [a, b];
    assert pair[..1] == [a] && [a][..0] == [];
    assert Merged([a]) == Chunk(Content([]) + a.content, Reasoning([]) + a.reasoning, Deltas([]) + a.calls) == a;
    assert Merged(pair) == Chunk(Content([a]) + b.content, Reasoning([a]) + b.reasoning, Deltas([a]) + b.calls);
  }

  /** The reply depends on what the chunks add up to only. */
  lemma {:induction false} ReplyIsDecidedByTheSums(find: FindCalls, loads: Loads, adapter: Adapter,
                                                   xs: seq<Chunk>, ys: seq<Chunk>)
    requires Content(xs) == Content(ys) && Reasoning(xs) == Reasoning(ys)
    requires forall i :: Mine(Deltas(xs), i) == Mine(Deltas(ys), i)
    ensures Reply(find, loads, adapter, xs) == Reply(find, loads, adapter, ys)
  {
    OnlyOwnFragmentsMatter(loads, Deltas(xs), Deltas(ys));
  }

  /** Grouping does not matter: a run of chunks may be cut differently, down to a single chunk. */
  lemma {:induction false} GroupingIsIrrelevant(xs: seq<Chunk>, ys: seq<Chunk>)
    ensures Merged(xs + ys) == Merged([Merged(xs), Merged(ys)])
  {
    MergedPair(Merged(xs), Merged(ys));
    if ys == [] {
      assert xs + ys == xs;
    } else {
      var front := ys[..|ys|-1];
      GroupingIsIrrelevant(xs, front);
      MergedPair(Merged(xs), Merged(front));
      assert (xs + ys)[..|xs + ys|-1] == xs + front;
    }
  }
}
