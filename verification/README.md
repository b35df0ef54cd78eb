# Verified model of the agent framework's stateful core

This project models the parts of the repository whose correctness rests on state
carried through loops and runs, and proves what they promise over every input or
every run:

- **Gemini transcript** (`GeminiTranscript`, `GeminiProtocol`, `GeminiOpenings`,
  `GeminiAnswers`): the fold from an OpenAI-style message list to Gemini turns, what each
  turn says, and the call/response protocol.
- **Embedded JSON** (`JsonText`, `EmbeddedJson`): the string-aware bracket scanner,
  the fenced-block and truncation fallbacks, against a printer for RFC 8259
  (sections 3 to 7).
- **Tool content** (`ToolContent`): the recursion through JSON nested in JSON strings.
- **Bi-temporal memory** (`EntityState`, `EntityStateTable`, `Consolidator`): rows with
  half-open validity, the append-only view over them and the consolidator.
- **Memory writer** (`CommaText`, `MemoryWriter`): routing of facts and open sets kept as
  comma-joined text.
- **Record identity and index** (`FactIdentity`, `RecordIndex`): the hash ids of facts and
  the three-pass index that replaces a scan.
- **Streaming and retry** (`StreamAccumulation`, `Retry`, `StreamRetry`): accumulation of
  streamed tool calls, the two-level retry budget and the loops that live on it.
- **Benchmark** (`RecallMetrics`, `Percentile`, `CaseCache`): retrieval metrics,
  percentiles, and the cache shared by all wrappers and cleared case by case.
- **Smaller loops** (`Forgetting`, `Grounding`, `SpanEdits`, `ResumableRun`, `Citations`).

Objects whose methods update fields are classes, and loops are methods with invariants.
Each such method is proved equal to a specification function or meets a relation that
does not mention its body. What the source promises is then proved about these.

`dafny verify dfyconfig.toml` checks the project. `Basics` and `Sublists` hold shared
vocabulary.

## Where code and documentation disagree

The model follows the code.

- `dreamer_consolidate.py:63-68` describes closing every active row but the newest; the
  code (96-109) closes rows only when all active values are equal
  (`EntityState.Repeats`).
- `sqlite_entity_state.py:229-237` calls supersede a precise single-row close that never
  touches the successor's backing row. It does so exactly when a closed row has the same
  namesake as the keeper (`Consolidator.MemoryFollowsTheNamesake`): among rows without the
  delimiter, when it has the keeper's entity, attribute, value and anchor, in whatever
  namespace (`KeptRowKeepsItsMemory`, `KeeperCanLoseItsMemory`); with delimiters also for a
  row of another attribute and value (`DelimiterClosesAnothersMemory`).
- `fact_identity.py:1-29` calls the digest the identity of a fact. The fields are joined
  by a delimiter they may hold themselves; `FactIdentity.SameIdMeansSameNamesake` says
  which facts share an id, `IdTellsFreeFacts` and `IdIsTheFactsAlone` when a fact is
  told apart, `DelimiterCollides` is an instance.
- `sqlite_entity_state.py:82-84` announces a `ValueError` for backdated rows; the code
  raises none and appends the row below the newer one. An open set then loses sight of
  an item (`MemoryWriter.EveryItemStaysVisible` gives the exact condition,
  `FutureItemHidesTheNext` an instance), and an update of a single value is not seen
  (`EveryUpdateIsSeen`, `BackdatedFactIsHidden`).
- `resolver.py:199-202` calls the values of an open set comma-separated and deduped. A value
  that holds a comma itself is read back in pieces, is never recognised as a repeat, and is
  listed again each time (`CommaText.OnlyCommasSplit`, `MemoryWriter.CommaIsNeverRepeated`,
  `CommaText.ArrivalsAreTheFirst`, with `CommaText.CommaIsListedTwice` as an instance).
- `resolver.py:146-171` speaks of superseding the active row; the call appends.
- `dreamer_reflect.py:416-418` asks that a turn mention half of the fact's tokens; half of
  an odd number is rounded down, so one of three tokens is enough
  (`Grounding.HalfIsRoundedDown`).
- `vertex_gemini_adapter.py:149-165` collects ids by another rule than 480-495 emits
  calls; the two agree exactly under `GeminiProtocol.CollectedIdsAreThePartIds`, and
  `GeminiProtocol.NamelessCallIsAnswered` is an instance where they do not.
- `vertex_gemini_adapter.py:539-545` reports an incomplete turn; complete answers are
  dropped alike unless the first eligible reply to each call comes in call order
  (`GeminiAnswers.AnswersGetThrough` is the exact condition for any messages,
  `GeminiProtocol.SwappedAnswersAreDropped` an instance). Calls that share an id are never
  answered (`GeminiAnswers.SharedIdIsNeverAnswered`, `GeminiAnswers.SharedIdDropsTheAnswers`).
- `openai_adapter.py:273-301` retries as long as no text came. Fragments of tool calls
  handed on by an abandoned attempt are not taken back, and `StreamResponse` joins them
  with those of the next attempt (`StreamRetry.CallsAreTheLast` says exactly when that does
  not show, `StreamRetry.ArgumentsPileUp` and `AbandonedFragmentStays` how it shows).
- `openai_compat_base.py:530-539` computes a delay for a retryable status, Retry-After
  included, and then does not wait (`Retry.HttpxWaitsForNoStatus` gives the exact
  condition, `Retry.RetryAfterIsSkipped` an instance).
- `strip_pydoc_backticks.py:54-59` adds a byte column to a character offset
  (`SpanEdits.ByteColumnsNeedAscii` gives the exact condition,
  `SpanEdits.AccentMovesTheEnd` an instance).
- `run_locomo_bench.py:1668-1676` deletes by prefix, which reaches further than the named
  case when another case id contains a colon (`CaseCache.KeyBelongs`,
  `CaseCache.ColonReachesFurther`).

## Model

| member | source | states |
|---|---|---|
| GeminiTranscript.CollectActiveToolCallIds | houyi/adapters/llm/vertex_gemini_adapter.py:149-165 | the collected ids are those of the well-formed calls in order, and each named call's name is remembered |
| GeminiTranscript.BuildContentParts | houyi/adapters/llm/vertex_gemini_adapter.py:480-526 | text first, then one part per named call, and an empty text part when there is nothing |
| GeminiTranscript.FlushPendingToolResponses | houyi/adapters/llm/vertex_gemini_adapter.py:528-547 | adds one user turn only when the pending ids are exactly the active ones, and always clears the pending state |
| GeminiTranscript.QueueToolResponsePart | houyi/adapters/llm/vertex_gemini_adapter.py:549-583 | takes an eligible response once; orphan, duplicate and nameless ones change nothing |
| GeminiTranscript.PrepareContentsAndSystem | houyi/adapters/llm/vertex_gemini_adapter.py:585-654 | the fold with its four pieces of state yields the transcript defined exchange by exchange, and the last system message; what stands in it is told by GeminiOpenings and GeminiProtocol from the messages alone |
| GeminiTranscript.QueueIsAccepted | houyi/adapters/llm/vertex_gemini_adapter.py:549-583 | over any run of replies the queue holds exactly the first eligible reply to each call |
| GeminiTranscript.AcceptedCovers | houyi/adapters/llm/vertex_gemini_adapter.py:528-583 | accepted replies have distinct ids among the active ones, so equal id lists mean none is missing or repeated |
| GeminiTranscript.LeadingRunIsDropped | houyi/adapters/llm/vertex_gemini_adapter.py:560-566 | tool messages before any call leave no turn |
| GeminiProtocol.EveryResponseAnswersItsOpener | houyi/adapters/llm/vertex_gemini_adapter.py:528-654 | in every transcript a response turn stands directly behind the turn of its own opener, the message with as many openers before it as that turn has opening turns before it, and answers its collected ids, all of them, once each, in order, each with the content of a reply to it and under that reply's own name or else the name remembered for the id by then |
| GeminiProtocol.OpenersSurvive | houyi/adapters/llm/vertex_gemini_adapter.py:596-654 | whatever happens to tool messages, every other message keeps its turn, in order |
| GeminiOpenings.EveryMessageIsSaid | houyi/adapters/llm/vertex_gemini_adapter.py:480-654 | for any message list, the turns that are no responses are as many as the messages that are neither system nor tool messages, and the k-th says what the k-th of these says: the role is user if and only if the message's is, and the parts are the content as one text when not empty, for an assistant then one call per named call with its own id, name and arguments in call order, and one empty text for neither |
| GeminiOpenings.SaidInOneWay | houyi/adapters/llm/vertex_gemini_adapter.py:480-526 | there is one such turn for each message |
| GeminiOpenings.LastSystemIsTheLast | houyi/adapters/llm/vertex_gemini_adapter.py:599-601 | the system text is the content of the system message behind which no other stands, and nothing if and only if there is none |
| GeminiOpenings.CollectedAreListed | houyi/adapters/llm/vertex_gemini_adapter.py:149-165 | the collected ids are those of the calls with an id and a payload, in call order |
| GeminiOpenings.LatestNameCounts | houyi/adapters/llm/vertex_gemini_adapter.py:149-165 | at any point the name remembered for an id is that of the latest named call with it in any assistant message so far, and nothing if there was none |
| GeminiAnswers.AnswersGetThrough | houyi/adapters/llm/vertex_gemini_adapter.py:528-583 | for any ids and messages, a response turn appears if and only if there are calls and the first eligible reply to each exists and these come in call order |
| GeminiAnswers.SharedIdIsNeverAnswered | houyi/adapters/llm/vertex_gemini_adapter.py:539-569 | when two collected calls share an id, no replies whatever make a response turn |
| GeminiAnswers.IdleRepliesAreIgnored | houyi/adapters/llm/vertex_gemini_adapter.py:549-583 | an orphan, nameless or repeated reply anywhere among the replies changes neither what is accepted nor the response turn |
| GeminiProtocol.DistinctRepliesAreAccepted | houyi/adapters/llm/vertex_gemini_adapter.py:539-583 | when all tool replies are eligible and their ids distinct, all are accepted, and a response turn appears if and only if their ids are the collected ones in order |
| GeminiAnswers.SharedIdDropsTheAnswers | houyi/adapters/llm/vertex_gemini_adapter.py:539-569 | two calls with one id, answered one by one, leave no response turn |
| GeminiAnswers.RepeatedAnswerDoesNoHarm | houyi/adapters/llm/vertex_gemini_adapter.py:568-569 | two calls of which the first is answered twice still get their response turn |
| GeminiProtocol.SwappedAnswersAreDropped | houyi/adapters/llm/vertex_gemini_adapter.py:539-545 | two proper calls answered completely but in the other order leave only the calling turn; in call order they do not |
| GeminiProtocol.NothingIsDropped | houyi/adapters/llm/vertex_gemini_adapter.py:149-654 | a conversation whose calls are proper and answered in order arrives whole: each opener, and each caller followed by one complete response turn |
| GeminiProtocol.CollectedIdsAreThePartIds | houyi/adapters/llm/vertex_gemini_adapter.py:149-495 | the ids a response must match are those of the emitted calls if and only if no call has an id without a name or a name without an id |
| GeminiProtocol.NamelessCallIsAnswered | houyi/adapters/llm/vertex_gemini_adapter.py:149-165 | a call without a name is not emitted, and the reply to it still becomes a response turn |
| EmbeddedJson.ExtractBalancedBlock | houyi/utils/json_utils.py:109-138 | the result is the shortest prefix at which the string-aware depth returns to zero, or nothing when there is none |
| EmbeddedJson.FindFirstJsonStart | houyi/utils/json_utils.py:60-67 | the first opening brace or bracket, or -1 |
| EmbeddedJson.ExtractTopLevelJsonBlock | houyi/utils/json_utils.py:51-57 | the shortest block from the first opening bracket |
| EmbeddedJson.TopLevelBlockIsUnique | houyi/utils/json_utils.py:51-57 | at most one result meets that description |
| EmbeddedJson.PrintedClosesAtItsEnd | houyi/utils/json_utils.py:109-138 | a printed object or array closes at its last character and no earlier, whatever quotes, escapes and brackets its strings hold |
| EmbeddedJson.StartsAtTheValue | houyi/utils/json_utils.py:60-67 | in prefix, value, suffix the search starts at the value if and only if the prefix holds no bracket |
| EmbeddedJson.ExtractsExactlyThePrintedValue | houyi/utils/json_utils.py:51-138 | behind a bracket-free prefix and before any suffix, exactly the printed value is extracted, and conversely |
| EmbeddedJson.ExtractFencedBlocks | houyi/utils/json_utils.py:70-87 | the stripped texts of the closed fences of a content, in order |
| EmbeddedJson.FencedBodiesAreFound | houyi/utils/json_utils.py:70-87 | of any document of plain lines and fences, exactly the fenced bodies are found |
| EmbeddedJson.SplitUndoesJoin | houyi/utils/json_utils.py:73-79 | splitting joined lines gives the lines back unless the last one is empty |
| EmbeddedJson.TruncationRepair | houyi/utils/json_utils.py:90-106 | the longest text from the first brace to a closing brace that loads as an object, or nothing when there is none |
| EmbeddedJson.ParseEmbeddedJson | houyi/utils/json_utils.py:8-40 | from one content: the first of the normalized text and the fenced texts that loads, whole or by its block, and failing all the longest object a truncated text starts with; which texts these are is told from the document |
| EmbeddedJson.EmbeddedValueIsParsed | houyi/utils/json_utils.py:8-40 | an object or array that loads is found inside bracket-free prose, whatever follows it, unless the prose as a whole loads or opens with a fence |
| EmbeddedJson.FencedValueIsParsed | houyi/utils/json_utils.py:24-33 | when the normalized text and the earlier fences are rejected, the k-th fenced body of a document that loads is the result |
| EmbeddedJson.NormalizedIsTheText | houyi/utils/json_utils.py:43-48 | the normalized text of a document that opens with a fence is the stripped join of all its prose and body lines in order, the body of an unclosed fence included; of any other document it is the document |
| EmbeddedJson.AttemptsAreTheBodies | houyi/utils/json_utils.py:9-33 | the texts tried are the normalized one and then the stripped closed bodies in order |
| EmbeddedJson.EveryContentIsWritten | houyi/utils/json_utils.py:9 | every stripped content can be read as such a document, so that this holds for all contents |
| EmbeddedJson.FencedTextIsParsed | houyi/utils/json_utils.py:9-11 | when the text lines of a document that opens with a fence load, their value is the result |
| EmbeddedJson.OneFenceIsParsed | houyi/utils/json_utils.py:43-48 | a reply that is one fence, closed or cut off before its end, gives the value of its body when that loads |
| EmbeddedJson.WholeBeforeBlock | houyi/utils/json_utils.py:9-33 | a text that loads as a whole gives that value, and only otherwise the value of its block |
| EmbeddedJson.LongestObjectIsRepaired | houyi/utils/json_utils.py:35-38 | when every text is rejected, the longest object the normalized text starts with is the result |
| EmbeddedJson.FirstAcceptedDecides | houyi/utils/json_utils.py:9-33 | the first text that is not rejected decides, whatever comes after it |
| EmbeddedJson.FailureMeansAllRejected | houyi/utils/json_utils.py:9-40 | the cascade fails if and only if every text and every block is rejected and no candidate for repair loads as an object |
| ToolContent.TextOutweighsValue | houyi/adapters/llm/siliconflow_adapter.py:235-241 | the printed text of a value is longer than the value is large |
| ToolContent.DecodingShrinks | houyi/adapters/llm/siliconflow_adapter.py:235-241 | decoding one layer of JSON text strictly shrinks the content, so the recursion ends on every value |
| ToolContent.EmptyOnlyIfHollow | houyi/adapters/llm/siliconflow_adapter.py:258-275 | the reduced text is empty if and only if the content is hollow: a falsy leaf, possibly inside one-element lists |
| ToolContent.LayersAreInvisible | houyi/adapters/llm/siliconflow_adapter.py:258-265 | any number of JSON string layers around a value leaves its reduced text the same, or the innermost text when the value is hollow |
| ToolContent.FirstTextFieldIsFirst | houyi/adapters/llm/siliconflow_adapter.py:244-248 | the first of the four keys that holds non-blank text is taken |
| ToolContent.FirstNestedFieldIsFirst | houyi/adapters/llm/siliconflow_adapter.py:249-255 | else the first of the four keys whose dict or list reduces to some text |
| ToolContent.DictGivesUpItsFirstField | houyi/adapters/llm/siliconflow_adapter.py:244-270 | what a dict reduces to, by which of its fields is first |
| ToolContent.ResultEndsTheChain | houyi/adapters/llm/siliconflow_adapter.py:258-275 | for every value the result is the end of the chain that takes off one layer at a time, by decoding a string, taking the only element or the first useful field: a string that decodes to nothing or to something hollow as it is, a scalar's text, the JSON of a dict without a useful field or of a list of any length but one; and every such chain ends so |
| ToolContent.UnwrapsOrEnds | houyi/adapters/llm/siliconflow_adapter.py:258-275 | on every value either a layer can be taken off or it ends as its result |
| ToolContent.ContentComesFirst | houyi/adapters/llm/siliconflow_adapter.py:245 | content comes before message, message before result, and result before data |
| ToolContent.LastEntryCounts | houyi/adapters/llm/siliconflow_adapter.py:246 | of entries with one key the last one counts |
| FactIdentity.RecordIdIsInjective | houyi/adapters/memory/fact_identity.py:23-36 | with delimiter-free subject, predicate and anchor two facts share a record id if and only if they are equal, whatever their objects hold |
| FactIdentity.NamesakeSharesTheText | houyi/adapters/memory/fact_identity.py:30 | every fact has a delimiter-free namesake with the same hashed text, itself if and only if it is delimiter-free |
| FactIdentity.SameIdMeansSameNamesake | houyi/adapters/memory/fact_identity.py:23-36 | any two facts share an id if and only if they have the same namesake |
| FactIdentity.IdTellsFreeFacts | houyi/adapters/memory/fact_identity.py:23-36 | a fact is told by its id from every delimiter-free fact if and only if it is delimiter-free itself |
| FactIdentity.IdIsTheFactsAlone | houyi/adapters/memory/fact_identity.py:23-36 | a fact shares its id with no other fact at all if and only if none of its four fields holds the delimiter |
| FactIdentity.DelimiterCollides | houyi/adapters/memory/fact_identity.py:30 | two different admissible facts with one id when a predicate holds the delimiter |
| EntityState.ActiveRowsAreActive | houyi/adapters/memory/backends/sqlite_entity_state.py:298-305 | the active rows are the open rows of the triple, newest first |
| EntityState.HistoryIsPreserved | houyi/adapters/memory/dreamer_consolidate.py:79-131 | for every triple and instant the values valid as of that instant are the same before and after consolidation |
| EntityState.LastActiveRowSurvives | houyi/adapters/memory/dreamer_consolidate.py:110-117 | a triple has an active row after consolidation if and only if it had one before |
| EntityState.NothingRepeats | houyi/adapters/memory/dreamer_consolidate.py:96-117 | a consolidated triple holds no exact duplicates any more; other triples are as before |
| EntityState.SecondRunClosesNothing | houyi/adapters/memory/dreamer_consolidate.py:79-131 | consolidating again, over any covered triples, is the identity |
| EntityStateTable.EntityStateView.GetReconciliationTs | houyi/adapters/memory/backends/sqlite_entity_state.py:34-39 | ends, at the reconciled time stamp, with no taken stamp within tolerance |
| EntityStateTable.ReconciledIsClose | houyi/adapters/memory/backends/sqlite_entity_state.py:32-39 | the reconciled stamp is at least the requested one and exceeds it by at most one nudge per taken stamp ahead |
| EntityStateTable.UpsertKeepsKeys | houyi/adapters/memory/backends/sqlite_entity_state.py:92-149 | appending keeps state ids and the time stamps of each triple unique |
| EntityStateTable.EntityStateView.Upsert | houyi/adapters/memory/backends/sqlite_entity_state.py:55-149 | appends one open row at the reconciled stamp and closes nothing |
| EntityStateTable.EntityStateView.ListConflictedTriples | houyi/adapters/memory/backends/sqlite_entity_state.py:184-216 | lists, once each and in order of namespace, entity and attribute, exactly the triples in scope with two or more active rows |
| EntityStateTable.EntityStateView.Supersede | houyi/adapters/memory/backends/sqlite_entity_state.py:218-269 | closes every active row but the kept one and the memories behind them; both counts are exact |
| EntityStateTable.VictimsAreCounted | houyi/adapters/memory/backends/sqlite_entity_state.py:251-256 | the number of closed rows is the drop in active rows |
| Consolidator.EntityStateConsolidator.Consolidate | houyi/adapters/memory/dreamer_consolidate.py:79-131 | the loop over triples amounts to one simultaneous change of the whole table and of the open memories; the report counts the triples with a tag, those with two values and no tag, and the others, told by their rows, and both closures exactly |
| Consolidator.RepeatsByRows | houyi/adapters/memory/dreamer_consolidate.py:88-109 | the tests on the active rows decide exactly the triples whose rows repeat one value |
| Consolidator.RunIsIdempotent | houyi/adapters/memory/dreamer_consolidate.py:79-131 | after a run nothing in scope repeats and a second run changes nothing |
| Consolidator.MemoryFollowsTheNamesake | houyi/adapters/memory/backends/sqlite_entity_state.py:229-265 | for any rows, an open memories row stays open over a run if and only if no superseded row has the same namesake as the row it backs |
| Consolidator.KeptRowKeepsItsMemory | houyi/adapters/memory/backends/sqlite_entity_state.py:229-265 | when no row holds the delimiter in entity, attribute or anchor: a row keeps its memories row if and only if no superseded row has its entity, attribute, value and anchor |
| Consolidator.DelimiterClosesAnothersMemory | houyi/adapters/memory/backends/sqlite_entity_state.py:259-265 | with a delimiter in an attribute, a kept row of another attribute and value loses its memories row |
| Consolidator.KeeperCanLoseItsMemory | houyi/adapters/memory/backends/sqlite_entity_state.py:233-238 | two equal facts from one anchor: the keeper's memories row is closed |
| CommaText.ParseUndoesJoin | houyi/adapters/memory/resolver.py:217-223 | splitting joined texts gives the texts back if and only if all are stripped, not empty and without commas |
| CommaText.ParseOfJoin | houyi/adapters/memory/resolver.py:217-222 | joined texts of any kind are read back as the items of each, one text after the other |
| CommaText.OnlyCommasSplit | houyi/adapters/memory/resolver.py:218 | a stripped text is read back as one item if and only if it holds no comma |
| CommaText.ArrivalsAreTheFirst | houyi/adapters/memory/resolver.py:217-223 | the list that arriving texts make is that of the distinct texts if and only if none holds a comma |
| CommaText.CommaIsListedTwice | houyi/adapters/memory/resolver.py:217-223 | a place with a comma, mentioned twice, is listed as four items |
| CommaText.FirstArrivalsAreTheItems | houyi/adapters/memory/resolver.py:219-222 | the distinct items, each once, and no others |
| CommaText.StripTakesTheSpaceAround | houyi/adapters/memory/resolver.py:218-219 | stripping takes all white space around a text and nothing else |
| MemoryWriter.MemoryWriterTools.WriteUnit | houyi/adapters/memory/resolver.py:116-144 | vague facts only reach the inbox; an active row raises the conflict error and changes nothing; else exactly one open row with the fact's fields is added behind all others and reported |
| MemoryWriter.MemoryWriterTools.UpdateUnit | houyi/adapters/memory/resolver.py:146-173 | the same routing, with the missing-row error when there is no active row |
| MemoryWriter.MemoryWriterTools.IngestFact | houyi/adapters/memory/resolver.py:193-228 | never ends in the conflict or missing-row error; vague and repeated facts leave the rows alone; any other fact adds exactly one open row behind all others, which is the row reported: with its object, or in an open set the list extended by it, at the first free stamp from its own time or the clock |
| MemoryWriter.OneIngest | houyi/adapters/memory/resolver.py:217-224 | after one ingest of any admissible object a reader sees the items extended by those of the object, unless it is listed already, if and only if the written list lands on top or adds no item |
| MemoryWriter.EveryCertainFactIsStored | houyi/adapters/memory/resolver.py:193-228 | an ingest adds one row with the fact's fields for every certain fact that is no repeat, single-valued updates included, and changes nothing for any other |
| MemoryWriter.EveryItemStaysVisible | houyi/adapters/memory/resolver.py:193-228 | over any run of accumulating ingests from an empty store, commas in the objects or not, a reader sees after every step the items that arrived, in order, if and only if every written list that adds items lands on top |
| MemoryWriter.CommaIsNeverRepeated | houyi/adapters/memory/resolver.py:219-221 | an object that holds a comma is never taken for a duplicate, whatever is stored |
| MemoryWriter.RepeatIsNoticed | houyi/adapters/memory/resolver.py:217-228 | a first fact that arrives again is taken for a duplicate if and only if its object holds no comma |
| MemoryWriter.UpdateIsSeen | houyi/adapters/memory/resolver.py:226-228 | after a single-valued update the newest active row is the new one, with its object, if and only if its stamp is ahead of the newest before; else a reader sees what was there |
| MemoryWriter.EveryUpdateIsSeen | houyi/adapters/memory/resolver.py:146-228 | over any run of single-valued facts a reader sees each one from when it is made if and only if each one is stamped ahead of the rows before it |
| MemoryWriter.LaterFactTakesOver | houyi/adapters/memory/resolver.py:226-228 | a fact dated no earlier than the newest active row is |
| MemoryWriter.BackdatedFactIsHidden | houyi/adapters/memory/resolver.py:226-228 | a fact dated further back than the nudges reach is not, and stays out of sight |
| MemoryWriter.LaterClockLandsOnTop | houyi/adapters/memory/resolver.py:223 | a clock not behind the newest row is enough for that |
| MemoryWriter.EarlierClockStaysBelow | houyi/adapters/memory/resolver.py:223 | a clock further back than the nudges reach is not, unless the object brings no item at all |
| MemoryWriter.FutureItemHidesTheNext | houyi/adapters/memory/resolver.py:217-228 | of any two items, a first one dated in the future hides the one added next |
| MemoryWriter.RunKeepsKeys | houyi/adapters/memory/resolver.py:193-228 | state ids and time stamps stay unique over every run of facts of any kind with fresh ids |
| RecordIndex.BuildRecordIndex | houyi/adapters/memory/engine.py:579-635 | for every id the index agrees with a scan: the last record with that id, else the first with that alias, else the first event |
| RecordIndex.FormulasCoincide | houyi/adapters/memory/fact_promoter.py:107-149 | the three separately written id formulas give one id for a promoted fact |
| RecordIndex.EventsAreRecalled | houyi/adapters/memory/engine.py:603-633 | the id an event is indexed under is the recall id of the fact the retrievers make of it, and its recall finds the first such event when no record answers |
| RecordIndex.LastRecordCounts | houyi/adapters/memory/engine.py:599-601 | of records with one id the last one counts |
| RecordIndex.FirstAliasCounts | houyi/adapters/memory/engine.py:591-598 | of records that answer by an alias the first one counts |
| RecordIndex.RecallFindsANamesake | houyi/adapters/memory/engine.py:1020-1028 | whatever else is stored, the recall of a promoted fact resolves to a record under that fact's id, which if promoted comes from a fact with the same namesake; all facts with that namesake resolve to it |
| RecordIndex.RecallFindsItsRecord | houyi/adapters/memory/engine.py:1020-1028 | when the fact, and every fact behind a record with a fact's id, is without delimiters: its recall resolves to a record that carries the same fields and anchor |
| RecordIndex.RecallFindsItsOwn | houyi/adapters/memory/engine.py:590-635 | with record ids unique it resolves to the very record |
| RecordIndex.AnswersMeanNamesakes | houyi/adapters/memory/engine.py:637-691 | by its two aliases a record answers for a fact if and only if what it is taken for, or what its key, content and id spell, has the fact's namesake |
| RecordIndex.AliasFindsANamesake | houyi/adapters/memory/engine.py:579-635 | when no record has a fact's id, its recall finds a record if and only if some record answers for it in that sense, and finds such a one |
| RecordIndex.AliasFindsTheFact | houyi/adapters/memory/engine.py:637-691 | a delimiter-free fact carried by a record under another id is found; the record found carries it too, provided that its own metadata is filled and delimiter-free and its key, content and id do not spell the fact |
| StreamAccumulation.StreamResponse.Next | houyi/adapters/llm/base.py:264-287 | after every chunk the parts and entries are what the chunks so far add up to |
| StreamAccumulation.StreamResponse.Finalize | houyi/adapters/llm/base.py:299-318 | the calls in index order with arguments decoded where they are JSON, the entries updated alike, and the finish data taken from an adapter if there is one |
| StreamAccumulation.SortKeys | houyi/adapters/llm/base.py:308 | the one increasing list of the indices |
| StreamAccumulation.Chat | houyi/adapters/llm/base.py:320-404 | the reply field by field: content and reasoning are the joined deltas, finish reason, usage and model those noted or their defaults, and the calls one per index in index order made of its own fragments with arguments decoded if and only if they are JSON, or without fragments those found in the reasoning or else in the content |
| StreamAccumulation.EntriesAreOwn | houyi/adapters/llm/base.py:271-286 | an entry is made of its own index's fragments: the last non-empty id and name, all arguments joined |
| StreamAccumulation.InterleavingIsIrrelevant | houyi/adapters/llm/base.py:271-286 | fragments of different calls mixed in any way give the union of what each stream gives alone |
| StreamAccumulation.OnlyOwnFragmentsMatter | houyi/adapters/llm/base.py:264-313 | streams that agree index by index give the same list of calls |
| StreamAccumulation.ReplyIsDecidedByTheSums | houyi/adapters/llm/base.py:320-404 | streams with the same joined texts that agree index by index give the same reply |
| StreamAccumulation.GroupingIsIrrelevant | houyi/adapters/llm/base.py:264-287 | cutting a stream into chunks differently changes nothing |
| Retry.RetryController.EvaluateRetry | houyi/adapters/llm/retry.py:221-251 | a retry is granted exactly when the method is allowed and the budget, total and per bucket, still covers it; delay and reason as documented |
| Retry.RetryController.OnFailure | houyi/adapters/llm/retry.py:188-219 | statuses outside the forcelist are never retried; Retry-After counts when respected |
| Retry.BucketsAddUp | houyi/adapters/llm/retry.py:247-248 | the bucket counters add up to the total |
| Retry.OnlySetLimitsCount | houyi/adapters/llm/retry.py:132-141 | retries are within the budget if and only if they are within the total and within each limit that is set for a bucket |
| Retry.AbsorbedMeans | houyi/adapters/llm/retry.py:132-251 | which failures are absorbed, told from the failures: retrying POSTs is allowed, every status is in the forcelist, there are no more of them than retries in total, and of each kind no more than the limit set for it |
| Retry.CaseDoesNotMatter | houyi/adapters/llm/retry.py:143-148 | a method is allowed or not whatever the case it is written in |
| Retry.LimitDoublesUpToTheCap | houyi/adapters/llm/retry.py:104-112 | the limit of a delay starts at the base and doubles from retry to retry until it meets the cap |
| Retry.DelayIsUniform | houyi/adapters/llm/retry.py:104-112 | without a header to respect the delay runs evenly from nothing to its limit |
| Retry.ContainsMeans | houyi/adapters/llm/retry.py:161-168 | a class name holds a word if and only if the word stands somewhere in it |
| Retry.Chat | houyi/adapters/llm/openai_adapter.py:231-243 | at most total_retries+1 requests; it succeeds if and only if some request is answered and the budget absorbs all failures before it |
| Retry.ExecuteChatHttpx | houyi/adapters/llm/openai_compat_base.py:491-543 | the same budget; ends in the first response or failure it cannot absorb |
| Retry.OrderIsIrrelevant | houyi/adapters/llm/retry.py:221-251 | whether failures are absorbed does not depend on their order |
| Retry.AbsorbedShrinks | houyi/adapters/llm/retry.py:221-251 | what absorbs a run of failures absorbs every beginning of it |
| Retry.WaitIsBounded | houyi/adapters/llm/retry.py:104-112 | without Retry-After the summed delay is at most the sum of the capped exponential delays |
| Retry.HttpxWaitsForNoStatus | houyi/adapters/llm/openai_compat_base.py:515-539 | the httpx loop waits at most as long as the policy decides, and exactly as long if and only if every wait decided for a status is zero |
| Retry.RetryAfterIsSkipped | houyi/adapters/llm/openai_compat_base.py:530-539 | after a 503 that asks for five seconds, granted a retry, the loop returns the next response having waited no time |
| StreamRetry.StreamChat | houyi/adapters/llm/openai_adapter.py:273-301 | all text delivered is the last attempt's; every earlier attempt failed silently and within the budget |
| StreamRetry.TextIsTheLast | houyi/adapters/llm/openai_adapter.py:288-294 | after silent attempts the delivered text is that of the next one |
| StreamRetry.CarryingChunksAreHandedOn | houyi/adapters/llm/openai_adapter.py:162-175 | handed on are exactly the chunks with text or call fragments, in order and as they came |
| StreamRetry.FragmentsAreTheLast | houyi/adapters/llm/openai_adapter.py:284-301 | the delivered call fragments are the last attempt's alone if and only if no abandoned attempt delivered any |
| StreamRetry.ArgumentsPileUp | houyi/adapters/llm/openai_adapter.py:284-301 | the accumulated arguments of a call start with what abandoned attempts sent, and are the intended ones if and only if that is empty |
| StreamRetry.CallsAreTheLast | houyi/adapters/llm/openai_adapter.py:284-301 | the accumulated calls are those of the last attempt alone if and only if every call that an abandoned attempt began is sent again, had no arguments yet, and passes on no name and no id that the last attempt does not set itself |
| StreamRetry.AbandonedFragmentStays | houyi/adapters/llm/openai_adapter.py:284-301 | in a run whose first attempt sends one fragment, fails and is retried within the budget, that fragment stands in front of the arguments sent next |
| RecallMetrics.RecallMetrics | scripts/run_locomo_bench.py:568-607 | the loop computes the three metrics of the ranked list for any k, negative ones included |
| RecallMetrics.RecallMeansCoverage | scripts/run_locomo_bench.py:592 | recall is in [0,1], 1 exactly when all gold was retrieved, 0 exactly when none was |
| RecallMetrics.PrecisionMeansNoNoise | scripts/run_locomo_bench.py:596 | precision is in [0,1], 1 exactly when all ranks are gold and distinct, 0 exactly when no gold was retrieved |
| RecallMetrics.RecallGrowsByShares | scripts/run_locomo_bench.py:585-592 | from 0, each further rank adds 1 over the number of gold anchors to recall if it finds a new one, and nothing otherwise |
| RecallMetrics.PrecisionIsTheMean | scripts/run_locomo_bench.py:585-596 | precision is the mean over the ranks of what each one found anew |
| RecallMetrics.NdcgMeansPerfection | scripts/run_locomo_bench.py:593-595 | nDCG is in [0,1], 1 exactly when the first min(gold, k) ranks are all fresh hits, 0 exactly when nothing was found |
| RecallMetrics.NdcgGrowsByGains | scripts/run_locomo_bench.py:593-595 | from 0, each further rank that finds a new gold anchor adds the gain of that rank as a part of the best possible gain |
| RecallMetrics.EarlierGainsMore | scripts/run_locomo_bench.py:593-594 | for any positive decreasing discount, hits that are no fewer and no later gain at least as much, and equally only when they are the same |
| RecallMetrics.HitsAreFresh | scripts/run_locomo_bench.py:585-591 | every counted position is a first occurrence of gold, the i-th not before rank i, and they are as many as distinct gold anchors found |
| RecallMetrics.FreshHitsAreListed | scripts/run_locomo_bench.py:585-591 | positions are counted in increasing order, and a rank is counted if and only if it is a first occurrence of gold |
| Percentile.PercentileRises | scripts/run_locomo_bench.py:610-622 | percentiles exist for p in [0,1], rise with p and stay between the least and the greatest sample |
| Percentile.SamplesAreHit | scripts/run_locomo_bench.py:616-622 | a percentile whose rank is whole is the sample of that rank |
| Percentile.PercentileJoinsNeighbours | scripts/run_locomo_bench.py:616-622 | between two neighbouring samples, ends included, the percentile moves along the line that joins them |
| Percentile.SortedSorts | scripts/run_locomo_bench.py:613 | ascending, with every sample as often as before |
| CaseCache.DiskCache.ClearCase | scripts/run_locomo_bench.py:1668-1676 | removes exactly the keys with the case prefix, counts them, and keeps the file in step |
| CaseCache.DiskCacheWrapper.Chat | scripts/run_locomo_bench.py:1772-1834 | a known request is answered from the cache; only a whole, non-blank answer is stored; a call counts as a hit exactly when it was known |
| CaseCache.DiskCacheWrapper.Embed | scripts/run_locomo_bench.py:1836-1845 | the embeddings returned are those stored for the batch |
| CaseCache.KeyBelongs | scripts/run_locomo_bench.py:1670-1671 | a key carries a case prefix if and only if it is that case's or its own case id carries the prefix |
| CaseCache.KeyIsInjective | scripts/run_locomo_bench.py:1722-1748 | two requests share a key if and only if case and request are equal, chats and embeddings apart |
| CaseCache.CacheRemembersFirstAnswers | scripts/run_locomo_bench.py:1649-1845 | over any run of puts, clears and reloads by any wrappers a request finds the first usable answer since its case was last cleared, and no stored text is blank |
| CaseCache.FirstWholeAnswerIsFound | scripts/run_locomo_bench.py:1649-1845 | over any run a request finds the first whole, non-blank answer, or the first batch, that no clear of its case has wiped since, by position in the run; cut-off, blank and missing answers are never found |
| CaseCache.CasesAreIsolated | scripts/run_locomo_bench.py:1668-1748 | for colon-free ids what a case finds depends on its own operations only |
| CaseCache.ColonReachesFurther | scripts/run_locomo_bench.py:1670-1671 | clearing one case wipes another whose id extends it by a colon |
| Forgetting.ApplyForgetting | houyi/adapters/memory/forgetting.py:18-80 | decay, threshold and capacity in one: the survivors as specified, in order |
| Forgetting.SurvivorsAreTheBest | houyi/adapters/memory/forgetting.py:58-80 | survivors did not fade, are distinct, and no record dropped for capacity is better than a kept one of its scope |
| Forgetting.DroppedScoreNoHigher | houyi/adapters/memory/forgetting.py:69-78 | what eviction drops has no higher product of decay and confidence than what it keeps in the scope, and with an equal one is no later updated |
| Forgetting.DecayGoesOn | houyi/adapters/memory/forgetting.py:43-56 | decay starts at the last update and goes on from where it has got to, by exp(-rate) for every further day, with 0.01 for types without a rate; nothing else of a record changes |
| Forgetting.AliveAreAged | houyi/adapters/memory/forgetting.py:30-36 | without eviction the survivors are the aged records that did not fall below the threshold |
| Forgetting.ScopesAreWithinCapacity | houyi/adapters/memory/forgetting.py:69-78 | every scope keeps as many as fit, neither more nor fewer, for any capacity; a negative one cuts that many off the ranking |
| Forgetting.RunForgetting | houyi/adapters/memory/engine.py:697-714 | the store keeps exactly the survivors' rows, unchanged, as the decayed importance is not written back; the returned count is the number of rows removed |
| Forgetting.RankedSorts | houyi/adapters/memory/forgetting.py:74-77 | the ranking is best first and holds the same records |
| Grounding.Mutate | houyi/adapters/memory/dreamer_reflect.py:423-448 | a fact is grounded if and only if some turn shares half of its tokens, rounded down, and at least one, in the first turn that shares most |
| Grounding.FindSupportingTurn | houyi/adapters/memory/dreamer_reflect.py:664-678 | the separate search finds the first best turn under the same condition |
| Grounding.SupportIsUnique | houyi/adapters/memory/dreamer_reflect.py:423-448 | at most one turn is the supporting one, so both searches agree |
| Grounding.HalfIsRoundedDown | houyi/adapters/memory/dreamer_reflect.py:427 | the threshold is met if and only if at least one token is shared and twice the shared ones fall short of all by at most one |
| Grounding.ReflectFact | houyi/adapters/memory/dreamer_reflect.py:635-652 | an accepted fact is evaluated in the turn its anchor names; the fallback to the first turn is never taken |
| Grounding.Reflect | houyi/adapters/memory/dreamer_reflect.py:615-661 | kept and retracted add up to grounded, at most extracted; the kept records are those that each fact's own evaluation keeps, in order |
| SpanEdits.RewriteSpans | scripts/strip_pydoc_backticks.py:118-128 | on disjoint spans the loop rewrites all spans of the original text at once and counts those that change; on any spans it edits last span first |
| SpanEdits.LoopRewritesAllAtOnce | scripts/strip_pydoc_backticks.py:118-128 | on disjoint spans this rewrites all spans of the original text at once; everything outside is kept in order |
| SpanEdits.LoopCleansInsidePieces | scripts/strip_pydoc_backticks.py:118-128 | however a text is cut into outside and inside pieces, the loop gives the text in which the outside pieces stay and the inside ones are cleaned, each in its place |
| SpanEdits.ChangesAreUnclean | scripts/strip_pydoc_backticks.py:121-128 | for disjoint spans in any order the loop counts exactly the spans of the original text that cleaning changes |
| SpanEdits.LineColToOffset | scripts/strip_pydoc_backticks.py:54-59 | line start plus column, or an error when the line does not exist |
| SpanEdits.LineStartsBehindItsNewlines | scripts/strip_pydoc_backticks.py:56-58 | a line starts behind as many newlines as lines precede it, right behind the last of them, or there are too few |
| SpanEdits.ByteColumnsNeedAscii | scripts/strip_pydoc_backticks.py:54-59 | a byte column leads to the intended character if and only if only ASCII precedes it on the line, and never before it |
| SpanEdits.AccentMovesTheEnd | scripts/strip_pydoc_backticks.py:45-128 | a docstring with three accents ends, by bytes, three characters too far, and its rewrite takes a backtick out of the literal behind it, whatever cleaning strips paired backticks and leaves lone ones; with the true end nothing changes |
| ResumableRun.OutputFile.Run | houyi/arena/benchmark_runner.py:106-156 | a run appends results of pending queries only, after the lines already there |
| ResumableRun.OutputFile.LoadDoneIds | houyi/arena/benchmark_runner.py:379-394 | the done ids are those of the readable lines |
| ResumableRun.NoIdTwice | houyi/arena/benchmark_runner.py:119-156 | across any sequence of resumed runs, stopped anywhere and finishing in any order, no id is written twice |
| ResumableRun.CompletedRunWritesAll | houyi/arena/benchmark_runner.py:119-156 | a run that completes leaves every query written exactly once and nothing pending |
| ResumableRun.NothingIsLost | houyi/arena/benchmark_runner.py:121-156 | each pending query is either written by the run or still pending after it, never both |
| ResumableRun.FreshRunMayRepeat | houyi/arena/benchmark_runner.py:119-121 | without resume a complete run repeats no id if and only if query ids are distinct and none was written before |
| ResumableRun.IdsAreOfReadableLines | houyi/arena/benchmark_runner.py:379-394 | the done ids are those of the readable lines, in order |
| ResumableRun.PendingAreTheOthers | houyi/arena/benchmark_runner.py:121 | pending are the queries that are not done, in order |
| Citations.RenumberCitations | houyi/arena/benchmark_runner.py:253-292 | every marker leads to the url of the link it replaced and text is kept |
| Citations.ReferencesAreFirstArrivals | houyi/arena/benchmark_runner.py:270-291 | the references list the linked urls, each once, by first appearance |
| Citations.ReferencesKeepFirstTitles | houyi/arena/benchmark_runner.py:276-280 | each under the title of the first link to it |

## Left out

- Thought signatures, decoding of call arguments and of tool responses, and message normalisation in the Gemini adapter: values pass through as text.
- Python's Unicode white space and the line separators of `splitlines` other than the newline: white space is that of JSON.
- Surrogate pairs and the decoding of JSON strings: the JSON parser is a parameter, and only its acceptance and its results matter.
- The order of `get_active`: the query has no ORDER BY; the model gives newest first, as tests/adapters/memory/test_resolver.py expects.
- Memories rows: modelled as the set of record ids whose valid_to is null; their contents and vectors are not part of this model.
- `invalidate`, as-of queries over SQL, transactions and concurrent writers of the entity-state view.
- The empty-field `ValueError` of upsert: the fact type already excludes empty fields.
- SHA-256 and MD5: injective functions given as parameters, truncation included.
- Clocks, new state ids, jitter, `exp` and `log2`: parameters with the sign, range or monotonicity facts that are used.
- Floating-point rounding: arithmetic is over reals.
- HTTP, SDK clients, proxies and scheduling: a request is an outcome given as a parameter; the overrides of the httpx hooks in single adapters are not modelled.
- Reading the Retry-After header: a failure carries the seconds already read.
- The patterns that find tool calls in reply text: a parameter of the streamed reply.
- A failed write of the cache file, and writes by threads at the same time.
- Records that expire by their time to live: they are gone before forgetting looks at them.
- The sampler of the reflector and `_best_turn_per_fact`: the same search for a best turn as grounding, with a tie-breaker.
- `_prepare_reasoner_records`, `_project_messages` and prompt building: filters without a protocol.
- Regular expressions: tokens, links, spans and the guessed fields of a record arrive as given; `num_to_entry` is the list of references, as its keys are consecutive.
- Torn lines in the output file, and the metrics file beside it.
