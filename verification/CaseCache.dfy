/**
 The response cache of the benchmark script (scripts/run_locomo_bench.py): one file-backed
 dict shared by all wrappers, with every key named after the running case, so that all
 entries of one case can be deleted by their prefix while others stay as they are.
 */
module CaseCache {
  import opened Basics
  import CommaText

  type Vectors = seq<seq<real>>

  datatype Entry = ChatEntry(content: string) | EmbedEntry(embeddings: Vectors)

  /** What is hashed: a JSON object for a chat, a JSON array for a batch to embed. */
  datatype Request = ChatRequest(body: string) | EmbedRequest(body: string)

  /** What the model behind a wrapper comes back with. */
  datatype Reply = TimedOut | Reply(content: Option<string>, cutOff: bool)

  type Cache = map<string, Entry>

  function Serialized(r: Request): string { (if r.ChatRequest? then "{" else "[") + r.body }

  function CaseKey(md5: Hash, caseId: string, r: Request): string { caseId + (":" + md5(Serialized(r))) }

  predicate ColonFree(s: string) { forall i :: 0 <= i < |s| ==> s[i] != ':' }

  /** MD5 in hexadecimal digits, taken as injective. */
  ghost predicate HexDigest(md5: Hash) { Injective(md5) && forall text :: ColonFree(md5(text)) }

  predicate IsNamespaced(key: string) { ':' in key }

  /** Keys from before the keys were named after cases are dropped on load. */
  function Loaded(saved: Cache): Cache { map k | k in saved && IsNamespaced(k) :: saved[k] }

  function Cleared(cache: Cache, sampleId: string): Cache { map k | k in cache && !(sampleId + ":" <= k) :: cache[k] }

  /** Only whole, non-blank answers are worth keeping. */
  predicate Storable(reply: Reply) {
    reply.Reply? && reply.content.Some? && CommaText.Strip(reply.content.value) != "" && !reply.cutOff
  }

  function AfterChat(cache: Cache, key: string, reply: Reply): Cache {
    if key in cache && cache[key].ChatEntry? then cache
    else if Storable(reply) then cache[key := ChatEntry(reply.content.value)]
    else cache
  }

  function AfterEmbed(cache: Cache, key: string, vectors: Vectors): Cache {
    if key in cache && cache[key].EmbedEntry? then cache else cache[key := EmbedEntry(vectors)]
  }

  class DiskCache {
    var cache: Cache
    /** What the file holds; a missing or unreadable file counts as empty, and saving succeeds. */
    var file: Cache

    /** Loading the file would give back exactly what is in memory. */
    ghost predicate Synced()
      reads this
    {
      cache == Loaded(file)
    }

    constructor (file: Cache)
      ensures Synced() && this.file == file
    {
      this.file := file;
      cache := Loaded(file);
    }

    method ClearCase(sampleId: string) returns (removed: nat)
      requires Synced()
      modifies this
      ensures Synced() && cache == Cleared(old(cache), sampleId)
      ensures removed == |old(cache)| - |cache|
    {
      var victims := set k | k in cache && sampleId + ":" <= k;
      removed := |victims|;
      ghost var before := cache;
      cache := cache - victims;
      assert cache == Cleared(before, sampleId);
      assert before.Keys == cache.Keys + victims;
      assert |before| == |before.Keys| && |cache| == |cache.Keys|;
      if removed > 0 {
        SaveCache();
      } else {
        assert victims == {};
        assert cache == before;
      }
    }

    method Get(key: string) returns (entry: Option<Entry>)
      ensures entry == if key in cache then Some(cache[key]) else None
    {
      entry := if key in cache then Some(cache[key]) else None;
    }

    method Put(key: string, entry: Entry)
      requires Synced() && IsNamespaced(key)
      modifies this
      ensures Synced() && cache == old(cache)[key := entry]
    {
      cache := cache[key := entry];
      SaveCache();
    }

    method SaveCache()
      requires forall k <- cache :: IsNamespaced(k)
      modifies this`file
      ensures Synced() && file == cache
    {
      file := cache;
    }
  }

  class DiskCacheWrapper {
    const cache: DiskCache
    var hits: nat
    var misses: nat

    constructor (cache: DiskCache)
      ensures this.cache == cache && hits == 0 && misses == 0
    {
      this.cache := cache;
      hits, misses := 0, 0;
    }

    /** A known request is answered from the cache, whatever the model would reply. */
    method Chat(md5: Hash, caseId: string, body: string, reply: Reply) returns (content: Option<string>)
      requires cache.Synced()
      modifies this, cache
      ensures cache.Synced()
      ensures var key := CaseKey(md5, caseId, ChatRequest(body));
              cache.cache == AfterChat(old(cache.cache), key, reply)
              && content == (if key in old(cache.cache) && old(cache.cache)[key].ChatEntry?
                             then Some(old(cache.cache)[key].content)
                             else if reply.TimedOut? then Some("") else reply.content)
      ensures var key := CaseKey(md5, caseId, ChatRequest(body));
              if key in old(cache.cache) && old(cache.cache)[key].ChatEntry?
              then hits == old(hits) + 1 && misses == old(misses) else hits == old(hits) && misses == old(misses) + 1
    {
      var key := CaseKey(md5, caseId, ChatRequest(body));
      KeyIsNamespaced(md5, caseId, ChatRequest(body));
      var entry := cache.Get(key);
      if entry.Some? && entry.value.ChatEntry? {
        hits := hits + 1;
        return Some(entry.value.content);
      }
      misses := misses + 1;
      if reply.TimedOut? {
        return Some("");
      }
      content := reply.content;
      if content.Some? && CommaText.Strip(content.value) != "" && !reply.cutOff {
        cache.Put(key, ChatEntry(content.value));
      }
    }

    method Embed(md5: Hash, caseId: string, body: string, fetched: Vectors) returns (embeddings: Vectors)
      requires cache.Synced()
      modifies cache
      ensures cache.Synced()
      ensures var key := CaseKey(md5, caseId, EmbedRequest(body));
              cache.cache == AfterEmbed(old(cache.cache), key, fetched)
              && key in cache.cache && cache.cache[key] == EmbedEntry(embeddings)
    {
      var key := CaseKey(md5, caseId, EmbedRequest(body));
      KeyIsNamespaced(md5, caseId, EmbedRequest(body));
      var entry := cache.Get(key);
      if entry.Some? && entry.value.EmbedEntry? {
        return entry.value.embeddings;
      }
      cache.Put(key, EmbedEntry(fetched));
      embeddings := fetched;
    }
  }

  lemma {:induction false} KeyIsNamespaced(md5: Hash, caseId: string, r: Request)
    ensures IsNamespaced(CaseKey(md5, caseId, r))
  {}

  // ---------------------------------------------------------------------
  // Keys
  // ---------------------------------------------------------------------

  /** A key carries the prefix of a case exactly when it is that case's, or its case id itself carries the prefix. */
  predicate Clears(sampleId: string, caseId: string) { sampleId == caseId || sampleId + ":" <= caseId }

  lemma {:induction false} KeyBelongs(md5: Hash, sampleId: string, caseId: string, r: Request)
    requires HexDigest(md5)
    ensures sampleId + ":" <= CaseKey(md5, caseId, r) <==> Clears(sampleId, caseId)
  {
    var digest, key, prefix := md5(Serialized(r)), CaseKey(md5, caseId, r), sampleId + ":";
    assert ColonFree(digest);
    assert prefix[|sampleId|] == ':';
    assert key[..|caseId|] == caseId && key[|caseId|] == ':';
    assert forall i :: |caseId| < i < |key| ==> key[i] == digest[i - |caseId| - 1];
    if prefix <= key {
      assert key[|sampleId|] == ':';
      if |sampleId| == |caseId| {
        assert sampleId == prefix[..|sampleId|] == key[..|caseId|];
      } else {
        assert prefix == key[..|prefix|] == caseId[..|prefix|];
      }
    }
    if sampleId == caseId {
      assert key == prefix + digest;
    } else if prefix <= caseId {
      assert key == prefix + (caseId[|prefix|..] + (":" + digest));
    }
  }

  /** For ids without colons a clear reaches its own case only. */
  lemma {:induction false} ColonFreeCasesAreApart(sampleId: string, caseId: string)
    requires ColonFree(caseId)
    ensures Clears(sampleId, caseId) <==> sampleId == caseId
  {
    assert (sampleId + ":")[|sampleId|] == ':';
  }

  lemma {:induction false} KeyIsInjective(md5: Hash, a: string, q: Request, b: string, r: Request)
    requires HexDigest(md5)
    ensures CaseKey(md5, a, q) == CaseKey(md5, b, r) <==> a == b && q == r
  {
    var x, y := CaseKey(md5, a, q), CaseKey(md5, b, r);
    if x == y {
      assert ColonFree(md5(Serialized(q))) && ColonFree(md5(Serialized(r)));
      assert x[|a|] == ':' && y[|b|] == ':';
      assert forall i :: |a| < i < |x| ==> x[i] == md5(Serialized(q))[i - |a| - 1];
      assert forall i :: |b| < i < |y| ==> y[i] == md5(Serialized(r))[i - |b| - 1];
      assert a == x[..|a|] && b == y[..|b|];
      assert md5(Serialized(q)) == x[|a|+1..] && md5(Serialized(r)) == y[|b|+1..];
      assert Serialized(q)[0] == Serialized(r)[0];
      assert q.body == Serialized(q)[1..] && r.body == Serialized(r)[1..];
    }
  }

  // ---------------------------------------------------------------------
  // Runs
  // ---------------------------------------------------------------------

  /** Any wrapper may act next; Reload is a new process over the saved file. */
  datatype Op =
    | Chat(caseId: string, body: string, reply: Reply)
    | Embed(caseId: string, body: string, vectors: Vectors)
    | Clear(caseId: string)
    | Reload

  function Step(md5: Hash, cache: Cache, op: Op): Cache {
    match op
    case Chat(caseId, body, reply) => AfterChat(cache, CaseKey(md5, caseId, ChatRequest(body)), reply)
    case Embed(caseId, body, vectors) => AfterEmbed(cache, CaseKey(md5, caseId, EmbedRequest(body)), vectors)
    case Clear(caseId) => Cleared(cache, caseId)
    case Reload => Loaded(cache)
  }

  function Run(md5: Hash, ops: seq<Op>): Cache {
    if ops == [] then map[] else Step(md5, Run(md5, ops[..|ops|-1]), ops[|ops|-1])
  }

  /** What one operation does to the answer remembered for a request of a case. */
  function Remembered(known: Option<Entry>, caseId: string, r: Request, op: Op): Option<Entry> {
    match op
    case Chat(id, body, reply) =>
      if id == caseId && r == ChatRequest(body) && known == None && Storable(reply)
      then Some(ChatEntry(reply.content.value))
      else known
    case Embed(id, body, vectors) =>
      if id == caseId && r == EmbedRequest(body) && known == None then Some(EmbedEntry(vectors)) else known
    case Clear(id) => if Clears(id, caseId) then None else known
    case Reload => known
  }

  /** The first usable answer to the request since the case was last cleared. */
  function FirstAnswer(ops: seq<Op>, caseId: string, r: Request): Option<Entry> {
    if ops == [] then None
    else Remembered(FirstAnswer(ops[..|ops|-1], caseId, r), caseId, r, ops[|ops|-1])
  }

  function Lookup(cache: Cache, key: string): Option<Entry> { if key in cache then Some(cache[key]) else None }

  predicate RightKind(e: Option<Entry>, r: Request) {
    e.Some? ==> e.value.ChatEntry? == r.ChatRequest? && (e.value.ChatEntry? ==> CommaText.Strip(e.value.content) != "")
  }

  lemma {:induction false} OneStep(md5: Hash, cache: Cache, op: Op, caseId: string, r: Request)
    requires HexDigest(md5) && RightKind(Lookup(cache, CaseKey(md5, caseId, r)), r)
    ensures var known := Lookup(cache, CaseKey(md5, caseId, r));
            Lookup(Step(md5, cache, op), CaseKey(md5, caseId, r)) == Remembered(known, caseId, r, op)
            && RightKind(Remembered(known, caseId, r, op), r)
  {
    match op {
      case Chat(id, body, _) => KeyIsInjective(md5, id, ChatRequest(body), caseId, r);
      case Embed(id, body, _) => KeyIsInjective(md5, id, EmbedRequest(body), caseId, r);
      case Clear(id) => KeyBelongs(md5, id, caseId, r);
      case Reload => KeyIsNamespaced(md5, caseId, r);
    }
  }

  /**
   Over any run of any wrappers, a request of a case finds the first usable answer since
   that case was last cleared: reloads lose nothing and other cases do not interfere.
   */
  lemma {:induction false} CacheRemembersFirstAnswers(md5: Hash, ops: seq<Op>, caseId: string, r: Request)
    requires HexDigest(md5)
    ensures Lookup(Run(md5, ops), CaseKey(md5, caseId, r)) == FirstAnswer(ops, caseId, r)
    ensures RightKind(FirstAnswer(ops, caseId, r), r)
  {
    if ops != [] {
      var front, last := ops[..|ops|-1], ops[|ops|-1];
      CacheRemembersFirstAnswers(md5, front, caseId, r);
      OneStep(md5, Run(md5, front), last, caseId, r);
    }
  }

  /** The operations on one case. */
  function Own(ops: seq<Op>, caseId: string): seq<Op> {
    if ops == [] then []
    else
      var last := ops[|ops|-1];
      Own(ops[..|ops|-1], caseId) + if last.Reload? || last.caseId != caseId then [] else [last]
  }

  /** What a case finds depends on its own operations only, as long as its id has no colon. */
  lemma {:induction false} CasesAreIsolated(md5: Hash, ops: seq<Op>, caseId: string, r: Request)
    requires HexDigest(md5) && ColonFree(caseId)
    ensures Lookup(Run(md5, ops), CaseKey(md5, caseId, r))
            == Lookup(Run(md5, Own(ops, caseId)), CaseKey(md5, caseId, r))
  {
    CacheRemembersFirstAnswers(md5, ops, caseId, r);
    CacheRemembersFirstAnswers(md5, Own(ops, caseId), caseId, r);
    OwnOperationsDecide(ops, caseId, r);
  }

  lemma {:induction false} OwnOperationsDecide(ops: seq<Op>, caseId: string, r: Request)
    requires ColonFree(caseId)
    ensures FirstAnswer(ops, caseId, r) == FirstAnswer(Own(ops, caseId), caseId, r)
  {
    if ops != [] {
      var front, last := ops[..|ops|-1], ops[|ops|-1];
      OwnOperationsDecide(front, caseId, r);
      if last.Clear? {
        ColonFreeCasesAreApart(last.caseId, caseId);
      }
      var own := Own(front, caseId);
      assert (own + [last])[..|own|] == own;
      assert own + [] == own;
    }
  }

  /** A colon lets the clear of one case wipe another: "a" reaches every id that starts with "a:". */
  lemma {:induction false} ColonReachesFurther(md5: Hash, reply: Reply)
    requires HexDigest(md5) && Storable(reply)
    ensures var r := ChatRequest("");
            Lookup(Run(md5, [Chat("a:b", "", reply)]), CaseKey(md5, "a:b", r)) == Some(ChatEntry(reply.content.value))
            && Lookup(Run(md5, [Chat("a:b", "", reply), Clear("a")]), CaseKey(md5, "a:b", r)) == None
  {}

  // ---------------------------------------------------------------------
  // Which answer is remembered
  // ---------------------------------------------------------------------

  /** The operation brings this entry for the request: a whole answer that is not blank, or a batch. */
  predicate Brings(op: Op, caseId: string, r: Request, e: Entry) {
    match e
    case ChatEntry(text) =>
      r.ChatRequest? && CommaText.Strip(text) != "" && op == Chat(caseId, r.body, Reply(Some(text), false))
    case EmbedEntry(vectors) => r.EmbedRequest? && op == Embed(caseId, r.body, vectors)
  }

  predicate ClearsCase(op: Op, caseId: string) { op.Clear? && Clears(op.caseId, caseId) }

  /** The case was not cleared at or behind k. */
  predicate NotClearedFrom(ops: seq<Op>, caseId: string, k: nat) {
    forall i :: k <= i < |ops| ==> !ClearsCase(ops[i], caseId)
  }

  /** Operation k brings the entry, the case is not cleared behind it, and what came before was cleared away. */
  ghost predicate BringsFirst(ops: seq<Op>, caseId: string, r: Request, e: Entry, k: int) {
    0 <= k < |ops| && Brings(ops[k], caseId, r, e) && NotClearedFrom(ops, caseId, k)
    && forall j, x :: 0 <= j < k && Brings(ops[j], caseId, r, x) ==> !NotClearedFrom(ops, caseId, j)
  }

  /** Every entry brought so far was cleared away. */
  ghost predicate NothingLeft(ops: seq<Op>, caseId: string, r: Request) {
    forall j, x :: 0 <= j < |ops| && Brings(ops[j], caseId, r, x) ==> !NotClearedFrom(ops, caseId, j)
  }

  lemma {:induction false} NotClearedGrows(ops: seq<Op>, op: Op, caseId: string, k: nat)
    requires k <= |ops|
    ensures NotClearedFrom(ops + [op], caseId, k) <==> NotClearedFrom(ops, caseId, k) && !ClearsCase(op, caseId)
  {
    var all := ops + [op];
    assert all[|ops|] == op && forall i :: 0 <= i < |ops| ==> all[i] == ops[i];
  }

  /** What is remembered is what BringsFirst says, and nothing when all was cleared away. */
  ghost predicate IsFirstLeft(ops: seq<Op>, caseId: string, r: Request, known: Option<Entry>) {
    match known
    case None => NothingLeft(ops, caseId, r)
    case Some(e) => exists k :: BringsFirst(ops, caseId, r, e, k)
  }

  lemma {:induction false} NextLeft(ops: seq<Op>, op: Op, caseId: string, r: Request, known: Option<Entry>)
    requires IsFirstLeft(ops, caseId, r, known)
    ensures IsFirstLeft(ops + [op], caseId, r, Remembered(known, caseId, r, op))
  {
    var all, next := ops + [op], Remembered(known, caseId, r, op);
    assert all[|ops|] == op && forall i :: 0 <= i < |ops| ==> all[i] == ops[i];
    forall j | 0 <= j <= |ops|
      ensures NotClearedFrom(all, caseId, j) <==> NotClearedFrom(ops, caseId, j) && !ClearsCase(op, caseId)
    {
      NotClearedGrows(ops, op, caseId, j);
    }
    if known.Some? && !ClearsCase(op, caseId) {
      var k :| BringsFirst(ops, caseId, r, known.value, k);
      assert BringsFirst(all, caseId, r, known.value, k);
    } else if known == None && next.Some? {
      assert BringsFirst(all, caseId, r, next.value, |ops|);
    }
  }

  /**
   Over any run a request of a case finds the first whole, non-blank answer, or the first
   batch, that no clear has wiped since; cut-off, blank and missing answers are never found.
   */
  lemma {:induction false} FirstWholeAnswerIsFound(md5: Hash, ops: seq<Op>, caseId: string, r: Request)
    requires HexDigest(md5)
    ensures IsFirstLeft(ops, caseId, r, Lookup(Run(md5, ops), CaseKey(md5, caseId, r)))
  {
    CacheRemembersFirstAnswers(md5, ops, caseId, r);
    FirstAnswerIsFirstLeft(ops, caseId, r);
  }

  lemma {:induction false} FirstAnswerIsFirstLeft(ops: seq<Op>, caseId: string, r: Request)
    ensures IsFirstLeft(ops, caseId, r, FirstAnswer(ops, caseId, r))
  {
    if ops != [] {
      var front, last := ops[..|ops|-1], ops[|ops|-1];
      FirstAnswerIsFirstLeft(front, caseId, r);
      NextLeft(front, last, caseId, r, FirstAnswer(front, caseId, r));
      assert front + [last] == ops;
    }
  }
}
