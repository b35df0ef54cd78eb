/** The retrying stream of the OpenAI adapter (openai_adapter.py): what a caller is handed over several attempts. */
module StreamRetry {
  import opened Basics
  import opened Sublists
  import opened Retry
  import opened StreamAccumulation
  import ToolContent

  datatype RawChunk = NoChoices | Choice(content: string, calls: seq<Delta>)

  /** One request: the chunks that arrive, and how the stream ends. */
  datatype Attempt = Attempt(chunks: seq<RawChunk>, end: Outcome)

  /** A chunk is handed on when it carries text or fragments of calls. */
  predicate Carries(c: RawChunk) { c.Choice? && (c.content != "" || c.calls != []) }

  function BuildStreamChunk(c: RawChunk): Option<Chunk> {
    if Carries(c) then Some(Chunk(c.content, "", c.calls)) else None
  }

  function Yielded(chunks: seq<RawChunk>): seq<Chunk> {
    if chunks == [] then []
    else
      var last := BuildStreamChunk(chunks[|chunks|-1]);
      Yielded(chunks[..|chunks|-1]) + if last.Some? then [last.value] else []
  }

  function Text(a: Attempt): string { Content(Yielded(a.chunks)) }

  function Fragments(a: Attempt): seq<Delta> { Deltas(Yielded(a.chunks)) }

  function Delivered(attempts: seq<Attempt>): seq<Chunk> {
    if attempts == [] then []
    else Delivered(attempts[..|attempts|-1]) + Yielded(attempts[|attempts|-1].chunks)
  }

  function Ends(attempts: seq<Attempt>): (os: seq<Outcome>)
    ensures |os| == |attempts|
  {
    if attempts == [] then [] else Ends(attempts[..|attempts|-1]) + [attempts[|attempts|-1].end]
  }

  lemma {:induction false} EndOf(attempts: seq<Attempt>, n: nat)
    requires n < |attempts|
    ensures Ends(attempts)[n] == attempts[n].end
  {
    if n < |attempts| - 1 {
      EndOf(attempts[..|attempts|-1], n);
    }
  }

  predicate Silent(a: Attempt) { Text(a) == "" }

  /** The first n attempts were given up before any text came. */
  ghost predicate Abandoned(p: RetryPolicy, attempts: seq<Attempt>, n: nat) {
    n <= |attempts| && (forall k :: 0 <= k < n ==> Silent(attempts[k])) && Absorbed(p, Ends(attempts)[..n])
  }

  lemma {:induction false} SplitLast<T>(xs: seq<T>, ys: seq<T>)
    requires ys != []
    ensures ys[..|ys|-1] + [ys[|ys|-1]] == ys && (xs + ys[..|ys|-1]) + [ys[|ys|-1]] == xs + ys
  {}

  lemma {:induction false} ContentOfBoth(xs: seq<Chunk>, ys: seq<Chunk>)
    ensures Content(xs + ys) == Content(xs) + Content(ys)
    ensures Deltas(xs + ys) == Deltas(xs) + Deltas(ys)
  {
    if ys == [] {
      assert xs + ys == xs;
    } else {
      var front, last := ys[..|ys|-1], ys[|ys|-1];
      ContentOfBoth(xs, front);
      SplitLast(xs, ys);
      OneMoreChunk(xs + front, last);
      OneMoreChunk(front, last);
      Associates(Content(xs), Content(front), last.content);
      Associates(Deltas(xs), Deltas(front), last.calls);
    }
  }

  lemma {:induction false} NextChunk(chunks: seq<RawChunk>, k: nat)
    requires k < |chunks|
    ensures var built := BuildStreamChunk(chunks[k]);
            Yielded(chunks[..k+1])
            == (if built.Some? then Yielded(chunks[..k]) + [built.value] else Yielded(chunks[..k]))
            && (Content(Yielded(chunks[..k+1])) != "" <==>
                Content(Yielded(chunks[..k])) != "" || (built.Some? && built.value.content != ""))
  {
    assert chunks[..k+1][..k] == chunks[..k];
    var built := BuildStreamChunk(chunks[k]);
    if built.Some? {
      OneMoreChunk(Yielded(chunks[..k]), built.value);
    }
  }

  lemma {:induction false} NextAttempt(attempts: seq<Attempt>, n: nat)
    requires n < |attempts|
    ensures Delivered(attempts[..n+1]) == Delivered(attempts[..n]) + Yielded(attempts[n].chunks)
  {
    assert attempts[..n+1][..n] == attempts[..n];
  }

  /** All text comes from the attempt after the silent ones. */
  lemma {:induction false} TextIsTheLast(attempts: seq<Attempt>, n: nat)
    requires n < |attempts| && forall k :: 0 <= k < n ==> Silent(attempts[k])
    ensures Content(Delivered(attempts[..n])) == ""
    ensures Content(Delivered(attempts[..n+1])) == Text(attempts[n])
  {
    NextAttempt(attempts, n);
    if n > 0 {
      TextIsTheLast(attempts, n - 1);
    }
    ContentOfBoth(Delivered(attempts[..n]), Yielded(attempts[n].chunks));
    assert Text(attempts[n]) == "" + Text(attempts[n]);
  }

  /** One pass over the stream: what is handed on, and whether it held any text. */
  method Consume(chunks: seq<RawChunk>) returns (yielded: seq<Chunk>, emitted: bool)
    ensures yielded == Yielded(chunks) && (emitted <==> Content(Yielded(chunks)) != "")
  {
    yielded, emitted := [], false;
    for k := 0 to |chunks|
      invariant yielded == Yielded(chunks[..k])
      invariant emitted <==> Content(Yielded(chunks[..k])) != ""
    {
      NextChunk(chunks, k);
      var streamChunk := BuildStreamChunk(chunks[k]);
      if streamChunk.Some? {
        emitted := emitted || streamChunk.value.content != "";
        yielded := yielded + [streamChunk.value];
      }
    }
    assert chunks[..|chunks|] == chunks;
  }

  /** After the failure of a silent attempt the budget decides. */
  method MaybeRetry(controller: RetryController, end: Outcome, ghost attempts: seq<Attempt>, ghost n: nat)
    returns (again: bool)
    requires controller.Valid() && Abandoned(controller.policy, attempts, n)
    requires controller.granted == BucketsOf(Ends(attempts)[..n])
    requires n < |attempts| && Silent(attempts[n]) && end == attempts[n].end && end.Failed?
    modifies controller
    ensures controller.Valid()
    ensures again <==> Absorbed(controller.policy, Ends(attempts)[..n+1])
    ensures again ==> n < Max(0, controller.policy.totalRetries)
    ensures again ==> controller.granted == BucketsOf(Ends(attempts)[..n+1])
    ensures again ==> Abandoned(controller.policy, attempts, n + 1)
  {
    EndOf(attempts, n);
    NextFailure(controller.policy, Ends(attempts), n);
    var decision := controller.OnFailure(end.failure, end.jitter);
    again := decision.retry;
  }

  /**
   stream_chat: every attempt but the last was abandoned before any text came, so that all
   text delivered is the last attempt's; with ok false, its failure is raised.
   */
  method StreamChat(policy: RetryPolicy, attempts: seq<Attempt>)
    returns (delivered: seq<Chunk>, requests: nat, ok: bool)
    requires |attempts| > Max(0, policy.totalRetries)
    ensures 1 <= requests <= Max(0, policy.totalRetries) + 1
    ensures delivered == Delivered(attempts[..requests]) && Abandoned(policy, attempts, requests - 1)
    ensures Content(delivered) == Text(attempts[requests-1])
    ensures ok <==> attempts[requests-1].end.Answer?
    ensures !ok ==> Text(attempts[requests-1]) != "" || !Absorbed(policy, Ends(attempts)[..requests])
  {
    var controller := new RetryController(policy);
    delivered, requests := [], 0;
    assert attempts[..0] == [] && Ends(attempts)[..0] == [];
    while true
      invariant fresh(controller) && controller.Valid() && controller.policy == policy
      invariant requests <= Max(0, policy.totalRetries) && controller.granted == BucketsOf(Ends(attempts)[..requests])
      invariant delivered == Delivered(attempts[..requests]) && Abandoned(policy, attempts, requests)
      decreases |attempts| - requests
    {
      var n := requests;
      var yielded, emitted := Consume(attempts[n].chunks);
      delivered := delivered + yielded;
      requests := n + 1;
      NextAttempt(attempts, n);
      TextIsTheLast(attempts, n);
      if attempts[n].end.Answer? {
        return delivered, requests, true;
      }
      if emitted {
        return delivered, requests, false;
      }
      var again := MaybeRetry(controller, attempts[n].end, attempts, n);
      if !again {
        return delivered, requests, false;
      }
    }
  }

  // ---------------------------------------------------------------------
  // Fragments of calls are not taken back
  // ---------------------------------------------------------------------

  lemma {:induction false} NextFragments(attempts: seq<Attempt>, n: nat)
    requires n < |attempts|
    ensures Deltas(Delivered(attempts[..n+1])) == Deltas(Delivered(attempts[..n])) + Fragments(attempts[n])
  {
    assert attempts[..n+1][..n] == attempts[..n];
    ContentOfBoth(Delivered(attempts[..n]), Yielded(attempts[n].chunks));
  }

  lemma {:induction false} NoFragments(attempts: seq<Attempt>, n: nat)
    requires n <= |attempts|
    ensures Deltas(Delivered(attempts[..n])) == [] <==> forall k :: 0 <= k < n ==> Fragments(attempts[k]) == []
  {
    if n > 0 {
      NoFragments(attempts, n - 1);
      NextFragments(attempts, n - 1);
    }
  }

  /** The delivered fragments are the last attempt's alone exactly when no abandoned attempt delivered any. */
  lemma {:induction false} FragmentsAreTheLast(attempts: seq<Attempt>, n: nat)
    requires n < |attempts|
    ensures Deltas(Delivered(attempts[..n+1])) == Fragments(attempts[n]) <==>
            forall k :: 0 <= k < n ==> Fragments(attempts[k]) == []
  {
    NextFragments(attempts, n);
    NoFragments(attempts, n);
    var before, last := Deltas(Delivered(attempts[..n])), Fragments(attempts[n]);
    assert |before + last| == |before| + |last|;
  }

  function ArgumentsAt(ds: seq<Delta>, i: Slot): string { CallArguments(Mine(ds, i)) }

  lemma {:induction false} ArgumentsOfBoth(xs: seq<Delta>, ys: seq<Delta>, i: Slot)
    ensures ArgumentsAt(xs + ys, i) == ArgumentsAt(xs, i) + ArgumentsAt(ys, i)
  {
    if ys == [] {
      assert xs + ys == xs;
    } else {
      var front, last := ys[..|ys|-1], ys[|ys|-1];
      ArgumentsOfBoth(xs, front, i);
      SplitLast(xs, ys);
      MoreArguments(xs + front, last, i);
      MoreArguments(front, last, i);
      Associates(ArgumentsAt(xs, i), ArgumentsAt(front, i), if Index(last) == i then last.arguments else "");
    }
  }

  lemma {:induction false} MoreArguments(ds: seq<Delta>, d: Delta, i: Slot)
    ensures ArgumentsAt(ds + [d], i) == ArgumentsAt(ds, i) + if Index(d) == i then d.arguments else ""
  {
    MineGrows(ds, d, i);
    var mine := Mine(ds, i);
    assert (mine + [d])[..|mine|] == mine;
    assert CallArguments(mine) + "" == CallArguments(mine);
  }

  /** The accumulated arguments of a call that the last attempt sends again start with those sent before. */
  lemma {:induction false} ArgumentsPileUp(attempts: seq<Attempt>, n: nat, i: Slot)
    requires n < |attempts| && i in Indices(Fragments(attempts[n]))
    ensures var all := Accumulated(Deltas(Delivered(attempts[..n+1])));
            var sent := ArgumentsAt(Deltas(Delivered(attempts[..n])), i);
            var meant := ArgumentsAt(Fragments(attempts[n]), i);
            i in all && all[i].arguments.Str? && all[i].arguments.s == sent + meant
            && (all[i].arguments.s == meant <==> sent == "")
  {
    var before, last := Deltas(Delivered(attempts[..n])), Fragments(attempts[n]);
    NextFragments(attempts, n);
    ArgumentsOfBoth(before, last, i);
    EntriesAreOwn(before + last, i);
    IndicesOfBoth(before, last, i);
    assert |ArgumentsAt(before, i) + ArgumentsAt(last, i)| == |ArgumentsAt(before, i)| + |ArgumentsAt(last, i)|;
  }

  lemma {:induction false} IndicesOfBoth(xs: seq<Delta>, ys: seq<Delta>, i: Slot)
    ensures i in Indices(xs + ys) <==> i in Indices(xs) || i in Indices(ys)
  {
    if ys == [] {
      assert xs + ys == xs;
    } else {
      var front, last := ys[..|ys|-1], ys[|ys|-1];
      IndicesOfBoth(xs, front, i);
      SplitLast(xs, ys);
      MineGrows(xs + front, last, i);
      MineGrows(front, last, i);
    }
  }

  /** Fragments of an index that arrived earlier leave the entry as the later ones make it. */
  predicate LeavesNoTrace(earlier: seq<Delta>, later: seq<Delta>)
    requires earlier != []
  {
    later != [] && CallArguments(earlier) == "" && (CallName(earlier) == "" || CallName(later) != "")
    && (SomeId(later) || CallId(earlier) == CallId(later))
  }

  predicate SomeId(ds: seq<Delta>) { exists k :: 0 <= k < |ds| && HasId(ds[k]) }

  lemma {:induction false} MineOfBoth(xs: seq<Delta>, ys: seq<Delta>, i: Slot)
    ensures Mine(xs + ys, i) == Mine(xs, i) + Mine(ys, i)
  {
    if ys == [] {
      assert xs + ys == xs;
    } else {
      var front, last := ys[..|ys|-1], ys[|ys|-1];
      MineOfBoth(xs, front, i);
      SplitLast(xs, ys);
      Associates(Mine(xs, i), Mine(front, i), if Index(last) == i then [last] else []);
    }
  }

  lemma {:induction false} ArgumentsOfMine(xs: seq<Delta>, ys: seq<Delta>)
    ensures CallArguments(xs + ys) == CallArguments(xs) + CallArguments(ys)
  {
    if ys == [] {
      assert xs + ys == xs;
    } else {
      SplitLast(xs, ys);
      ArgumentsOfMine(xs, ys[..|ys|-1]);
      Associates(CallArguments(xs), CallArguments(ys[..|ys|-1]), ys[|ys|-1].arguments);
    }
  }

  /** Later fragments win where they say something; else the earlier ones count. */
  lemma {:induction false} LaterFragmentsWin(xs: seq<Delta>, ys: seq<Delta>)
    requires xs != []
    ensures CallName(xs + ys) == if CallName(ys) != "" then CallName(ys) else CallName(xs)
    ensures CallId(xs + ys) == if SomeId(ys) then CallId(ys) else CallId(xs)
  {
    if ys == [] {
      assert xs + ys == xs;
    } else {
      var front := ys[..|ys|-1];
      SplitLast(xs, ys);
      LaterFragmentsWin(xs, front);
      assert (xs + ys)[..|xs + ys| - 1] == xs + front;
      assert SomeId(ys) <==> SomeId(front) || HasId(ys[|ys|-1]);
    }
  }

  lemma {:induction false} TraceOfOne(xs: seq<Delta>, ys: seq<Delta>)
    requires xs != [] && ys != []
    ensures CallOf(xs + ys) == CallOf(ys) <==> LeavesNoTrace(xs, ys)
  {
    LaterFragmentsWin(xs, ys);
    ArgumentsOfMine(xs, ys);
    var a, b := CallArguments(xs), CallArguments(ys);
    assert |a + b| == |a| + |b|;
    if a == "" {
      assert a + b == b;
    }
  }

  /** An abandoned attempt sent nothing for this index, or nothing that shows. */
  ghost predicate NoTraceAt(before: seq<Delta>, last: seq<Delta>, i: Slot) {
    i in Indices(before) ==> Mine(before, i) != [] && LeavesNoTrace(Mine(before, i), Mine(last, i))
  }

  ghost predicate AgreeAt(a: map<Slot, Call>, b: map<Slot, Call>, i: Slot) {
    (i in a <==> i in b) && (i in a && i in b ==> a[i] == b[i])
  }

  lemma {:induction false} TraceAt(before: seq<Delta>, last: seq<Delta>, i: Slot)
    ensures AgreeAt(Accumulated(before + last), Accumulated(last), i) <==> NoTraceAt(before, last, i)
  {
    EntriesAreOwn(before + last, i);
    EntriesAreOwn(last, i);
    IndicesOfBoth(before, last, i);
    MineOfBoth(before, last, i);
    MineIsAnyone(before, i);
    MineIsAnyone(last, i);
    if i in Indices(before) && i in Indices(last) {
      TraceOfOne(Mine(before, i), Mine(last, i));
    } else if i in Indices(last) {
      assert Mine(before, i) + Mine(last, i) == Mine(last, i);
    }
  }

  lemma {:induction false} AgreeEverywhere(a: map<Slot, Call>, b: map<Slot, Call>)
    ensures a == b <==> forall i :: AgreeAt(a, b, i)
  {
    if forall i :: AgreeAt(a, b, i) {
      assert forall i <- a :: AgreeAt(a, b, i);
      assert forall i <- b :: AgreeAt(a, b, i);
      assert a.Keys == b.Keys;
    }
  }

  /**
   The accumulated calls are those of the last attempt alone exactly when every call an
   abandoned attempt sent fragments of is sent again, had got no arguments yet, and
   passes on neither a name nor an id that the last attempt does not set itself.
   */
  lemma {:induction false} CallsAreTheLast(attempts: seq<Attempt>, n: nat)
    requires n < |attempts|
    ensures Accumulated(Deltas(Delivered(attempts[..n+1]))) == Accumulated(Fragments(attempts[n])) <==>
            forall i :: NoTraceAt(Deltas(Delivered(attempts[..n])), Fragments(attempts[n]), i)
  {
    var before, last := Deltas(Delivered(attempts[..n])), Fragments(attempts[n]);
    NextFragments(attempts, n);
    AgreeEverywhere(Accumulated(before + last), Accumulated(last));
    forall i ensures AgreeAt(Accumulated(before + last), Accumulated(last), i) <==> NoTraceAt(before, last, i) {
      TraceAt(before, last, i);
    }
  }

  lemma {:induction false} FragmentsOfTwo(attempts: seq<Attempt>, d: Delta, e: Delta)
    requires |attempts| == 2 && Index(d) == Index(e)
    requires attempts[0].chunks == [Choice("", [d])] && attempts[1].chunks == [Choice("", [e])]
    ensures var all := Accumulated(Deltas(Delivered(attempts)));
            Index(e) in all && all[Index(e)].arguments == ToolContent.Str(d.arguments + e.arguments)
  {
    OneFragment(attempts[0], d);
    OneFragment(attempts[1], e);
    OneArgument(d);
    OneArgument(e);
    NextFragments(attempts, 0);
    assert attempts[..2] == attempts && attempts[..0] == [] && Deltas(Delivered([])) + [d] == [d];
    ArgumentsPileUp(attempts, 1, Index(e));
  }

  lemma {:induction false} OneAbandoned(p: RetryPolicy, attempts: seq<Attempt>, failure: Failure, u: Jitter)
    requires |attempts| >= 1 && Silent(attempts[0]) && attempts[0].end == Failed(failure, u)
    requires Retryable(p, failure) && Within(p, [BucketOf(failure)])
    ensures Abandoned(p, attempts, 1)
  {
    EndOf(attempts, 0);
    assert Ends(attempts)[..1] == [Failed(failure, u)];
    OneAbsorbed(p, failure, u);
  }

  lemma {:induction false} OneAbsorbed(p: RetryPolicy, failure: Failure, u: Jitter)
    requires Retryable(p, failure) && Within(p, [BucketOf(failure)])
    ensures Absorbed(p, [Failed(failure, u)])
  {
    assert [Failed(failure, u)][..0] == [];
    assert BucketsOf([Failed(failure, u)]) == [] + [BucketOf(failure)];
  }

  /**
   A run that StreamChat makes: the first attempt delivers one fragment, fails and is
   retried, the second delivers the call again. The fragment stays in front.
   */
  lemma {:induction false} AbandonedFragmentStays(p: RetryPolicy, failure: Failure, u: Jitter, d: Delta, e: Delta)
    requires Retryable(p, failure) && Within(p, [BucketOf(failure)]) && Index(d) == Index(e)
    ensures var attempts := [Attempt([Choice("", [d])], Failed(failure, u)), Attempt([Choice("", [e])], Answer)];
            var all := Accumulated(Deltas(Delivered(attempts)));
            Abandoned(p, attempts, 1) && Index(e) in all
            && all[Index(e)].arguments == ToolContent.Str(d.arguments + e.arguments)
  {
    var attempts := [Attempt([Choice("", [d])], Failed(failure, u)), Attempt([Choice("", [e])], Answer)];
    OneFragment(attempts[0], d);
    OneAbandoned(p, attempts, failure, u);
    FragmentsOfTwo(attempts, d, e);
  }

  lemma {:induction false} OneFragment(a: Attempt, d: Delta)
    requires a.chunks == [Choice("", [d])]
    ensures Silent(a) && Fragments(a) == [d]
  {
    var c := Chunk("", "", [d]);
    assert a.chunks[..0] == [];
    assert Yielded(a.chunks) == [] + [c];
    OneMoreChunk([], c);
    assert Content([]) + "" == "" && Deltas([]) + [d] == [d];
  }

  lemma {:induction false} OneArgument(d: Delta)
    ensures Index(d) in Indices([d]) && ArgumentsAt([d], Index(d)) == d.arguments
  {
    MineGrows([], d, Index(d));
    MoreArguments([], d, Index(d));
    assert [] + [d] == [d] && "" + d.arguments == d.arguments;
  }

  /** Handed on are exactly the chunks that carry something, in order, each as it came. */
  lemma {:induction false} CarryingChunksAreHandedOn(chunks: seq<RawChunk>)
    ensures exists carrying: seq<RawChunk> ::
              Picks(chunks, Carries, carrying) && |carrying| == |Yielded(chunks)|
              && forall i :: 0 <= i < |carrying| ==>
                   carrying[i].Choice? && Yielded(chunks)[i] == Chunk(carrying[i].content, "", carrying[i].calls)
  {
    FilterPicks(chunks, Carries);
    YieldedFilter(chunks);
  }

  lemma {:induction false} YieldedFilter(chunks: seq<RawChunk>)
    ensures var carrying := Filter(chunks, Carries);
            |carrying| == |Yielded(chunks)|
            && forall i :: 0 <= i < |carrying| ==>
                 carrying[i].Choice? && Yielded(chunks)[i] == Chunk(carrying[i].content, "", carrying[i].calls)
  {
    if chunks != [] {
      YieldedFilter(chunks[..|chunks|-1]);
    }
  }
}
