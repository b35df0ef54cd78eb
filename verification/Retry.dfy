/**
 The retry budget (adapters/llm/retry.py) and the request loops that live on it
 (openai_adapter.py, openai_compat_base.py): retries are limited in all and per kind of
 failure, and delayed by a random part of a limit that doubles, or as a server asks.
 */
module Retry {
  import opened Basics
  import opened Sublists

  datatype Bucket = ConnectBucket | ReadBucket | StatusBucket | OtherBucket

  datatype StatusCode = StatusCode(number: int)

  datatype RetryPolicy = RetryPolicy(
    totalRetries: int, connectRetries: Option<int>, readRetries: Option<int>, statusRetries: Option<int>,
    otherRetries: Option<int>, statusForcelist: set<StatusCode>, allowedMethods: Option<set<string>>,
    backoffBase: real, backoffCap: real, respectRetryAfterHeader: bool)

  datatype Reason = NotRetryable | MethodNotAllowed | TotalExhausted | BucketExhausted | Scheduled

  datatype RetryDecision = RetryDecision(retry: bool, delaySeconds: real, bucket: Bucket, reason: Reason)

  /** The random part of a delay. */
  type Jitter = u: real | 0.0 <= u <= 1.0 witness 0.0

  function RetriesForBucket(p: RetryPolicy, b: Bucket): int {
    var specific :=
      match b
      case ConnectBucket => p.connectRetries
      case ReadBucket => p.readRetries
      case StatusBucket => p.statusRetries
      case OtherBucket => p.otherRetries;
    if specific == None then p.totalRetries else Max(0, specific.value)
  }

  function UpperChar(c: char): char { if 'a' <= c <= 'z' then (c as int - 32) as char else c }

  function Upper(s: string): string { seq(|s|, i requires 0 <= i < |s| => UpperChar(s[i])) }

  function LowerChar(c: char): char { if 'A' <= c <= 'Z' then (c as int + 32) as char else c }

  function Lower(s: string): string { seq(|s|, i requires 0 <= i < |s| => LowerChar(s[i])) }

  predicate Contains(s: string, part: string) { part <= s || (s != "" && Contains(s[1..], part)) }

  lemma {:induction false} ContainsMeans(s: string, part: string)
    ensures Contains(s, part) <==> exists i :: 0 <= i <= |s| && part <= s[i..]
  {
    if part <= s {
      assert s[0..] == s;
    } else if s == "" {
      assert forall i :: 0 <= i <= |s| ==> s[i..] == s;
    } else {
      var rest := s[1..];
      ContainsMeans(rest, part);
      assert s[0..] == s;
      if i :| 0 <= i <= |rest| && part <= rest[i..] {
        assert s[i+1..] == rest[i..];
      }
      if i :| 0 <= i <= |s| && part <= s[i..] {
        assert s[i..] == rest[i-1..];
      }
    }
  }

  predicate AllowsMethod(p: RetryPolicy, verb: Option<string>) {
    p.allowedMethods == None || verb == None || Upper(verb.value) in p.allowedMethods.value
  }

  /** The bucket of a transport exception, told from the name of its class. */
  function ClassifyTransportException(name: string): Bucket {
    var lower := Lower(name);
    if Contains(lower, "connect") then ConnectBucket
    else if Contains(lower, "timeout") || Contains(lower, "read") || Contains(lower, "protocol") then ReadBucket
    else OtherBucket
  }

  function Pow2(n: nat): real { if n == 0 then 1.0 else 2.0 * Pow2(n - 1) }

  function MaxDelay(p: RetryPolicy, attempt: nat): real {
    var delay := p.backoffBase * Pow2(attempt);
    if delay <= p.backoffCap then delay else p.backoffCap
  }

  /** The limit starts at the base and doubles from retry to retry until it meets the cap, where it stays. */
  lemma {:induction false} LimitDoublesUpToTheCap(p: RetryPolicy, attempt: nat)
    requires p.backoffCap >= 0.0
    ensures MaxDelay(p, 0) == if p.backoffBase <= p.backoffCap then p.backoffBase else p.backoffCap
    ensures var doubled := 2.0 * MaxDelay(p, attempt);
            MaxDelay(p, attempt + 1) == if doubled <= p.backoffCap then doubled else p.backoffCap
  {
    var delay := p.backoffBase * Pow2(attempt);
    assert p.backoffBase * (2.0 * Pow2(attempt)) == 2.0 * delay;
  }

  /** random.uniform(0, delay). */
  function Uniform(u: Jitter, delay: real): real { u * delay }

  function ComputeBackoffDelay(p: RetryPolicy, attempt: nat, u: Jitter): real { Uniform(u, MaxDelay(p, attempt)) }

  // ---------------------------------------------------------------------
  // The budget
  // ---------------------------------------------------------------------

  function Count(bs: seq<Bucket>, b: Bucket): nat {
    if bs == [] then 0 else Count(bs[..|bs|-1], b) + if bs[|bs|-1] == b then 1 else 0
  }

  /** As many retries as the policy grants, in all and in every bucket. */
  ghost predicate Within(p: RetryPolicy, bs: seq<Bucket>) {
    |bs| <= Max(0, p.totalRetries) && forall b :: Count(bs, b) <= Max(0, RetriesForBucket(p, b))
  }

  lemma {:induction false} CountGrows(bs: seq<Bucket>, b: Bucket, x: Bucket)
    ensures Count(bs + [b], x) == Count(bs, x) + if x == b then 1 else 0
  {}

  lemma {:induction false} WithinGrows(p: RetryPolicy, bs: seq<Bucket>, b: Bucket)
    ensures Within(p, bs + [b]) <==>
            Within(p, bs) && |bs| < p.totalRetries && Count(bs, b) < RetriesForBucket(p, b)
  {}

  lemma {:induction false} CountIsBounded(bs: seq<Bucket>, b: Bucket)
    ensures Count(bs, b) <= |bs|
  {
    if bs != [] {
      CountIsBounded(bs[..|bs|-1], b);
    }
  }

  predicate Respects(limit: Option<int>, used: nat) { limit.Some? ==> used <= Max(0, limit.value) }

  /** The budget is the total with the limits set for single buckets; a bucket without one has the total alone. */
  lemma {:induction false} OnlySetLimitsCount(p: RetryPolicy, bs: seq<Bucket>)
    ensures Within(p, bs) <==>
            |bs| <= Max(0, p.totalRetries)
            && Respects(p.connectRetries, Count(bs, ConnectBucket)) && Respects(p.readRetries, Count(bs, ReadBucket))
            && Respects(p.statusRetries, Count(bs, StatusBucket)) && Respects(p.otherRetries, Count(bs, OtherBucket))
  {
    CountIsBounded(bs, ConnectBucket);
    CountIsBounded(bs, ReadBucket);
    CountIsBounded(bs, StatusBucket);
    CountIsBounded(bs, OtherBucket);
    if Within(p, bs) {
      assert Count(bs, ConnectBucket) <= Max(0, RetriesForBucket(p, ConnectBucket));
      assert Count(bs, ReadBucket) <= Max(0, RetriesForBucket(p, ReadBucket));
      assert Count(bs, StatusBucket) <= Max(0, RetriesForBucket(p, StatusBucket));
      assert Count(bs, OtherBucket) <= Max(0, RetriesForBucket(p, OtherBucket));
    }
  }

  /** The bucket counters add up to the total. */
  lemma {:induction false} BucketsAddUp(bs: seq<Bucket>)
    ensures Count(bs, ConnectBucket) + Count(bs, ReadBucket) + Count(bs, StatusBucket) + Count(bs, OtherBucket) == |bs|
  {
    if bs != [] {
      BucketsAddUp(bs[..|bs|-1]);
    }
  }

  /** A request fails with a status, whose Retry-After header is already read, or with a transport exception. */
  datatype Failure = Transport(name: string) | Status(code: StatusCode, retryAfter: Option<real>)

  function BucketOf(f: Failure): Bucket { if f.Status? then StatusBucket else ClassifyTransportException(f.name) }

  /** Requests are POSTs; a status outside the forcelist is never retried. */
  predicate Retryable(p: RetryPolicy, f: Failure) {
    AllowsMethod(p, Some("POST")) && (f.Status? ==> f.code in p.statusForcelist)
  }

  /** How long the retry number attempt waits. */
  function Delay(p: RetryPolicy, attempt: nat, f: Failure, u: Jitter): real {
    if f.Status? && p.respectRetryAfterHeader && f.retryAfter.Some? then f.retryAfter.value
    else ComputeBackoffDelay(p, attempt, u)
  }

  class RetryController {
    const policy: RetryPolicy
    var totalRetriesUsed: int
    var bucketRetriesUsed: map<Bucket, int>
    /** The buckets of the retries granted so far, in order. */
    ghost var granted: seq<Bucket>

    /** The counters count what was granted, and no more was granted than the policy allows. */
    ghost predicate Valid()
      reads this
    {
      totalRetriesUsed == |granted| && Within(policy, granted)
      && forall b :: b in bucketRetriesUsed && bucketRetriesUsed[b] == Count(granted, b)
    }

    constructor (policy: RetryPolicy)
      ensures Valid() && this.policy == policy && granted == []
    {
      this.policy := policy;
      totalRetriesUsed, granted := 0, [];
      bucketRetriesUsed := map[ConnectBucket := 0, ReadBucket := 0, StatusBucket := 0, OtherBucket := 0];
      new;
      forall b ensures b in bucketRetriesUsed && bucketRetriesUsed[b] == Count(granted, b) {
        match b {
          case ConnectBucket =>
          case ReadBucket =>
          case StatusBucket =>
          case OtherBucket =>
        }
      }
    }

    /** A retry is granted exactly when it keeps within the budget; it then costs one of its bucket. */
    method EvaluateRetry(bucket: Bucket, verb: Option<string>, retryAfter: Option<real>, u: Jitter)
      returns (d: RetryDecision)
      requires Valid()
      modifies this
      ensures Valid() && d.bucket == bucket
      ensures d.retry <==> AllowsMethod(policy, verb) && Within(policy, old(granted) + [bucket])
      ensures d.retry ==> granted == old(granted) + [bucket] && d.reason == Scheduled
      ensures d.retry ==> d.delaySeconds == if retryAfter.Some? then retryAfter.value
                                            else ComputeBackoffDelay(policy, |old(granted)|, u)
      ensures !d.retry ==> granted == old(granted) && d.delaySeconds == 0.0
      ensures !d.retry ==> d.reason == if !AllowsMethod(policy, verb) then MethodNotAllowed
                                       else if |granted| >= policy.totalRetries then TotalExhausted
                                       else BucketExhausted
    {
      WithinGrows(policy, granted, bucket);
      if !AllowsMethod(policy, verb) {
        return RetryDecision(false, 0.0, bucket, MethodNotAllowed);
      }
      if totalRetriesUsed >= policy.totalRetries {
        return RetryDecision(false, 0.0, bucket, TotalExhausted);
      }
      var bucketLimit := RetriesForBucket(policy, bucket);
      if bucketRetriesUsed[bucket] >= bucketLimit {
        return RetryDecision(false, 0.0, bucket, BucketExhausted);
      }
      var delay := if retryAfter.Some? then retryAfter.value else ComputeBackoffDelay(policy, totalRetriesUsed, u);
      totalRetriesUsed := totalRetriesUsed + 1;
      bucketRetriesUsed := bucketRetriesUsed[bucket := bucketRetriesUsed[bucket] + 1];
      forall x ensures Count(granted + [bucket], x) == Count(granted, x) + if x == bucket then 1 else 0 {
        CountGrows(granted, bucket, x);
      }
      granted := granted + [bucket];
      d := RetryDecision(true, delay, bucket, Scheduled);
    }

    /** on_transport_exception and on_status_code. */
    method OnFailure(f: Failure, u: Jitter) returns (d: RetryDecision)
      requires Valid()
      modifies this
      ensures Valid()
      ensures d.retry <==> Retryable(policy, f) && Within(policy, old(granted) + [BucketOf(f)])
      ensures granted == if d.retry then old(granted) + [BucketOf(f)] else old(granted)
      ensures d.retry ==> d.delaySeconds == Delay(policy, |old(granted)|, f, u)
    {
      if f.Status? && f.code !in policy.statusForcelist {
        return RetryDecision(false, 0.0, StatusBucket, NotRetryable);
      }
      var retryAfter := if f.Status? && policy.respectRetryAfterHeader then f.retryAfter else None;
      d := EvaluateRetry(BucketOf(f), Some("POST"), retryAfter, u);
    }
  }

  // ---------------------------------------------------------------------
  // Request loops
  // ---------------------------------------------------------------------

  /** What becomes of a request; a failure comes with the random part of the wait that may follow. */
  datatype Outcome = Answer | Failed(failure: Failure, jitter: Jitter)

  function BucketsOf(os: seq<Outcome>): (bs: seq<Bucket>)
    ensures |bs| == |os|
  {
    if os == [] then []
    else
      var last := os[|os|-1];
      BucketsOf(os[..|os|-1]) + [if last.Failed? then BucketOf(last.failure) else OtherBucket]
  }

  /** All of these requests failed, each failure can be retried, and together they stay within the budget. */
  ghost predicate Absorbed(p: RetryPolicy, os: seq<Outcome>) {
    (forall o <- os :: o.Failed? && Retryable(p, o.failure)) && Within(p, BucketsOf(os))
  }

  predicate IsStatus(o: Outcome) { o.Failed? && o.failure.Status? }

  predicate Mentions(o: Outcome, word: string) {
    o.Failed? && o.failure.Transport? && Contains(Lower(o.failure.name), word)
  }

  predicate IsConnect(o: Outcome) { Mentions(o, "connect") }

  predicate IsRead(o: Outcome) {
    !IsConnect(o) && (Mentions(o, "timeout") || Mentions(o, "read") || Mentions(o, "protocol"))
  }

  predicate IsOther(o: Outcome) { o.Failed? && o.failure.Transport? && !IsConnect(o) && !IsRead(o) }

  lemma {:induction false} KindsAreCounted(os: seq<Outcome>)
    requires forall o <- os :: o.Failed?
    ensures Count(BucketsOf(os), StatusBucket) == |Filter(os, IsStatus)|
    ensures Count(BucketsOf(os), ConnectBucket) == |Filter(os, IsConnect)|
    ensures Count(BucketsOf(os), ReadBucket) == |Filter(os, IsRead)|
    ensures Count(BucketsOf(os), OtherBucket) == |Filter(os, IsOther)|
  {
    if os != [] {
      var front, last := os[..|os|-1], os[|os|-1];
      assert last in os && forall o <- front :: o in os;
      KindsAreCounted(front);
      assert BucketsOf(os)[..|front|] == BucketsOf(front);
      assert BucketsOf(os)[|front|] == BucketOf(last.failure);
    }
  }

  /**
   Which failures are absorbed, told from the failures: POSTs may be retried at all, every
   status is in the forcelist, there are no more of them than retries in total, and of
   each kind no more than the limit set for it, if one is set.
   */
  lemma {:induction false} AbsorbedMeans(p: RetryPolicy, os: seq<Outcome>)
    ensures Absorbed(p, os) <==>
            (forall o <- os :: o.Failed? && (o.failure.Status? ==> o.failure.code in p.statusForcelist))
            && (os == [] || p.allowedMethods == None || "POST" in p.allowedMethods.value)
            && |os| <= Max(0, p.totalRetries)
            && Respects(p.statusRetries, |Filter(os, IsStatus)|) && Respects(p.connectRetries, |Filter(os, IsConnect)|)
            && Respects(p.readRetries, |Filter(os, IsRead)|) && Respects(p.otherRetries, |Filter(os, IsOther)|)
  {
    assert Upper("POST") == "POST";
    assert os != [] ==> os[0] in os;
    if forall o <- os :: o.Failed? {
      KindsAreCounted(os);
      OnlySetLimitsCount(p, BucketsOf(os));
    }
  }

  /** Without a header to respect, the delay spreads evenly from nothing to its limit. */
  lemma {:induction false} DelayIsUniform(p: RetryPolicy, n: nat, f: Failure, u: Jitter, v: Jitter)
    requires f.Transport? || f.retryAfter == None || !p.respectRetryAfterHeader
    ensures Delay(p, n, f, 0.0) == 0.0 && Delay(p, n, f, 1.0) == MaxDelay(p, n)
    ensures Delay(p, n, f, v) - Delay(p, n, f, u) == (v - u) * (Delay(p, n, f, 1.0) - Delay(p, n, f, 0.0))
  {
    SpreadsEvenly(u, v, MaxDelay(p, n));
  }

  lemma {:induction false} SpreadsEvenly(u: real, v: real, limit: real)
    ensures v * limit - u * limit == (v - u) * limit && 0.0 * limit == 0.0 && 1.0 * limit == limit
  {}

  /** The case of a method does not matter. */
  lemma {:induction false} CaseDoesNotMatter(p: RetryPolicy, verb: string)
    ensures Upper(Lower(verb)) == Upper(verb)
    ensures AllowsMethod(p, Some(Lower(verb))) <==> AllowsMethod(p, Some(verb))
  {
    assert |Upper(Lower(verb))| == |Upper(verb)|;
    forall i | 0 <= i < |verb| ensures Upper(Lower(verb))[i] == Upper(verb)[i] {
      assert UpperChar(LowerChar(verb[i])) == UpperChar(verb[i]);
    }
  }

  /** The n-th request is answered and all failures before it are absorbed. */
  ghost predicate Reachable(p: RetryPolicy, outcomes: seq<Outcome>, n: nat) {
    n < |outcomes| && outcomes[n].Answer? && Absorbed(p, outcomes[..n])
  }

  lemma {:induction false} NextFailure(p: RetryPolicy, outcomes: seq<Outcome>, n: nat)
    requires n < |outcomes| && outcomes[n].Failed?
    ensures var f := outcomes[n].failure;
            BucketsOf(outcomes[..n+1]) == BucketsOf(outcomes[..n]) + [BucketOf(f)]
            && (Absorbed(p, outcomes[..n+1]) <==>
                Absorbed(p, outcomes[..n]) && Retryable(p, f) && Within(p, BucketsOf(outcomes[..n]) + [BucketOf(f)]))
  {
    var os, o := outcomes[..n], outcomes[n];
    assert outcomes[..n+1] == os + [o] && (os + [o])[..n] == os;
    WithinGrows(p, BucketsOf(os), BucketOf(o.failure));
    assert forall x :: x in os + [o] <==> x in os || x == o;
  }

  lemma {:induction false} AbsorbedShrinks(p: RetryPolicy, outcomes: seq<Outcome>, n: nat, k: nat)
    requires k <= n <= |outcomes| && Absorbed(p, outcomes[..n])
    ensures Absorbed(p, outcomes[..k])
    decreases n - k
  {
    if k < n {
      AbsorbedShrinks(p, outcomes, n, k + 1);
      assert outcomes[k] == outcomes[..k+1][k];
      assert outcomes[k] in outcomes[..k+1];
      NextFailure(p, outcomes, k);
    }
  }

  /** Beyond a failure that the budget does not absorb, no answer is reached. */
  lemma {:induction false} NothingBeyond(p: RetryPolicy, outcomes: seq<Outcome>, n: nat)
    requires n < |outcomes| && outcomes[n].Failed? && !Absorbed(p, outcomes[..n+1])
    ensures forall m: nat :: m <= n || !Reachable(p, outcomes, m)
  {
    forall m: nat | n < m && Reachable(p, outcomes, m) ensures false {
      AbsorbedShrinks(p, outcomes, m, n + 1);
    }
  }

  lemma {:induction false} NothingBefore(p: RetryPolicy, outcomes: seq<Outcome>, n: nat)
    requires n <= |outcomes| && Absorbed(p, outcomes[..n])
    ensures forall m: nat :: m < n ==> !Reachable(p, outcomes, m)
  {
    forall m: nat | m < n ensures !Reachable(p, outcomes, m) {
      assert outcomes[m] == outcomes[..n][m];
      assert outcomes[m] in outcomes[..n];
    }
  }

  /** The waiting time of the retries after these failures; immediate tells whether a status is retried at once. */
  function Waited(p: RetryPolicy, os: seq<Outcome>, immediate: bool): real {
    if os == [] then 0.0
    else
      var n := |os| - 1;
      Waited(p, os[..n], immediate)
      + if os[n].Failed? && !(immediate && os[n].failure.Status?) then Delay(p, n, os[n].failure, os[n].jitter) else 0.0
  }

  lemma {:induction false} WaitGrows(p: RetryPolicy, outcomes: seq<Outcome>, n: nat, immediate: bool)
    requires n < |outcomes| && outcomes[n].Failed?
    ensures Waited(p, outcomes[..n+1], immediate)
            == Waited(p, outcomes[..n], immediate)
               + if immediate && outcomes[n].failure.Status? then 0.0
                 else Delay(p, n, outcomes[n].failure, outcomes[n].jitter)
  {
    assert outcomes[..n+1][..n] == outcomes[..n];
  }

  /**
   chat of the OpenAI adapter. The last request was answered, or its failure is more
   than the budget absorbs; no more requests are made than outcomes lists.
   */
  method Chat(policy: RetryPolicy, outcomes: seq<Outcome>) returns (attempts: nat, ok: bool, slept: real)
    requires |outcomes| > Max(0, policy.totalRetries)
    ensures 1 <= attempts <= Max(0, policy.totalRetries) + 1
    ensures Absorbed(policy, outcomes[..attempts-1])
    ensures if ok then outcomes[attempts-1].Answer?
            else outcomes[attempts-1].Failed? && !Absorbed(policy, outcomes[..attempts])
    ensures slept == Waited(policy, outcomes[..attempts-1], false)
    ensures ok <==> exists n: nat :: Reachable(policy, outcomes, n)
  {
    var controller := new RetryController(policy);
    attempts, ok, slept := 0, false, 0.0;
    while true
      invariant fresh(controller) && controller.Valid() && controller.policy == policy && !ok
      invariant attempts <= Max(0, policy.totalRetries) && controller.granted == BucketsOf(outcomes[..attempts])
      invariant Absorbed(policy, outcomes[..attempts])
      invariant slept == Waited(policy, outcomes[..attempts], false)
      decreases |outcomes| - attempts
    {
      var n := attempts;
      attempts := n + 1;
      if outcomes[n].Answer? {
        ok := true;
        assert Reachable(policy, outcomes, n);
        return;
      }
      NextFailure(policy, outcomes, n);
      WaitGrows(policy, outcomes, n, false);
      var decision := controller.OnFailure(outcomes[n].failure, outcomes[n].jitter);
      if !decision.retry {
        NothingBefore(policy, outcomes, n);
        NothingBeyond(policy, outcomes, n);
        return;
      }
      slept := slept + decision.delaySeconds;
    }
  }

  /** What the httpx loop ends with: a response, good or bad, or a transport exception. */
  datatype HttpxResult = Response(request: nat) | Raised(request: nat)

  predicate BreaksOff(o: Outcome) { o.Failed? && o.failure.Transport? }

  /** The loop ends with the first outcome answered or not absorbed, having waited for transport failures only. */
  ghost predicate HttpxEnds(p: RetryPolicy, outcomes: seq<Outcome>, result: HttpxResult, slept: real) {
    var n := result.request;
    n < |outcomes| && n <= Max(0, p.totalRetries) && Absorbed(p, outcomes[..n])
    && (outcomes[n].Failed? ==> !Absorbed(p, outcomes[..n+1]))
    && (result.Raised? <==> BreaksOff(outcomes[n]))
    && slept == Waited(p, outcomes[..n], true)
  }

  method ExecuteChatHttpx(policy: Option<RetryPolicy>, outcomes: seq<Outcome>)
    returns (result: HttpxResult, slept: real)
    requires |outcomes| > if policy.Some? then Max(0, policy.value.totalRetries) else 0
    ensures policy == None ==>
              result == (if BreaksOff(outcomes[0]) then Raised(0) else Response(0)) && slept == 0.0
    ensures policy.Some? ==> HttpxEnds(policy.value, outcomes, result, slept)
  {
    slept := 0.0;
    if policy == None {
      return if BreaksOff(outcomes[0]) then Raised(0) else Response(0), 0.0;
    }
    var p := policy.value;
    var controller := new RetryController(p);
    var n := 0;
    while true
      invariant fresh(controller) && controller.Valid() && controller.policy == p
      invariant n <= Max(0, p.totalRetries) && controller.granted == BucketsOf(outcomes[..n])
      invariant Absorbed(p, outcomes[..n])
      invariant slept == Waited(p, outcomes[..n], true)
      decreases |outcomes| - n
    {
      if outcomes[n].Answer? {
        return Response(n), slept;
      }
      NextFailure(p, outcomes, n);
      WaitGrows(p, outcomes, n, true);
      var decision := controller.OnFailure(outcomes[n].failure, outcomes[n].jitter);
      if outcomes[n].failure.Transport? {
        if !decision.retry {
          return Raised(n), slept;
        }
        slept := slept + decision.delaySeconds;
      } else if !decision.retry {
        return Response(n), slept;
      }
      n := n + 1;
    }
  }

  // ---------------------------------------------------------------------
  // What the budget means
  // ---------------------------------------------------------------------

  /** Which failures come first does not matter: only how many of each bucket. */
  lemma {:induction false} OrderIsIrrelevant(p: RetryPolicy, os: seq<Outcome>, permuted: seq<Outcome>)
    requires multiset(os) == multiset(permuted)
    ensures Absorbed(p, os) <==> Absorbed(p, permuted)
  {
    assert forall o :: o in os <==> o in multiset(os);
    assert forall o :: o in permuted <==> o in multiset(permuted);
    assert |multiset(os)| == |multiset(permuted)|;
    forall b ensures Count(BucketsOf(os), b) == Count(BucketsOf(permuted), b) {
      CountOfPermuted(os, permuted, b);
    }
  }

  lemma {:induction false} CountOfPermuted(os: seq<Outcome>, permuted: seq<Outcome>, b: Bucket)
    requires multiset(os) == multiset(permuted)
    ensures Load(os, b) == Load(permuted, b)
    decreases |os|
  {
    assert |os| == |multiset(os)| == |multiset(permuted)| == |permuted|;
    if os != [] {
      var n := |os| - 1;
      assert os[n] in multiset(os);
      var j :| 0 <= j < |permuted| && permuted[j] == os[n];
      RemovedOne(os, n);
      RemovedOne(permuted, j);
      CountOfPermuted(Removed(os, n), Removed(permuted, j), b);
      CountWithout(permuted, j, b);
      CountWithout(os, n, b);
    } else {
      assert permuted == [];
    }
  }

  function Removed(os: seq<Outcome>, j: nat): seq<Outcome>
    requires j < |os|
  {
    os[..j] + os[j+1..]
  }

  lemma {:induction false} RemovedOne(os: seq<Outcome>, j: nat)
    requires j < |os|
    ensures multiset(Removed(os, j)) == multiset(os) - multiset{os[j]}
  {
    var front, back := os[..j], os[j+1..];
    assert os == front + ([os[j]] + back);
    assert multiset(os) == multiset(front) + (multiset{os[j]} + multiset(back));
    assert multiset(Removed(os, j)) == multiset(front) + multiset(back);
  }

  function Load(os: seq<Outcome>, b: Bucket): nat { Count(BucketsOf(os), b) }

  lemma {:induction false} CountWithout(os: seq<Outcome>, j: nat, b: Bucket)
    requires j < |os|
    ensures Load(os, b) == Load(Removed(os, j), b) + Load([os[j]], b)
    decreases |os|
  {
    var n := |os| - 1;
    LastCounts(os, b);
    if j == n {
      assert Removed(os, j) == os[..n];
    } else {
      assert os[..n][j] == os[j];
      CountWithout(os[..n], j, b);
      RemovedBeforeLast(os, j);
      LastCounts(Removed(os, j), b);
    }
  }

  lemma {:induction false} RemovedBeforeLast(os: seq<Outcome>, j: nat)
    requires j < |os| - 1
    ensures var shorter := Removed(os, j);
            shorter != [] && shorter[..|shorter|-1] == Removed(os[..|os|-1], j) && shorter[|shorter|-1] == os[|os|-1]
  {}

  lemma {:induction false} LastCounts(os: seq<Outcome>, b: Bucket)
    requires os != []
    ensures Load(os, b) == Load(os[..|os|-1], b) + Load([os[|os|-1]], b)
  {
    var front, last := os[..|os|-1], os[|os|-1];
    assert [last][..0] == [];
    var x := BucketsOf([last])[0];
    assert BucketsOf([last]) == [] + [x];
    CountGrows([], x, b);
    CountGrows(BucketsOf(front), x, b);
  }

  /** The sum of the capped exponential delays. */
  function Cumulative(p: RetryPolicy, n: nat): real {
    if n == 0 then 0.0 else Cumulative(p, n - 1) + MaxDelay(p, n - 1)
  }

  predicate AsksForDelay(o: Outcome) { o.Failed? && o.failure.Status? && o.failure.retryAfter.Some? }

  lemma {:induction false} MaxDelayIsNotNegative(p: RetryPolicy, n: nat)
    requires p.backoffBase >= 0.0 && p.backoffCap >= 0.0
    ensures MaxDelay(p, n) >= 0.0 && Pow2(n) >= 1.0
  {
    if n > 0 {
      MaxDelayIsNotNegative(p, n - 1);
    }
    ProductIsNotNegative(p.backoffBase, Pow2(n));
  }

  lemma {:induction false} ProductIsNotNegative(a: real, b: real)
    requires a >= 0.0 && b >= 0.0
    ensures a * b >= 0.0
  {}

  lemma {:induction false} JitterShrinks(u: Jitter, x: real)
    requires x >= 0.0
    ensures 0.0 <= Uniform(u, x) <= x
  {
    assert (1.0 - u) * x == x - u * x;
    ProductIsNotNegative(u, x);
    ProductIsNotNegative(1.0 - u, x);
  }

  lemma {:induction false} DelayIsBounded(p: RetryPolicy, n: nat, o: Outcome)
    requires p.backoffBase >= 0.0 && p.backoffCap >= 0.0
    requires !p.respectRetryAfterHeader || !AsksForDelay(o)
    ensures 0.0 <= MaxDelay(p, n)
    ensures o.Failed? ==> 0.0 <= Delay(p, n, o.failure, o.jitter) <= MaxDelay(p, n)
  {
    MaxDelayIsNotNegative(p, n);
    if o.Failed? {
      JitterShrinks(o.jitter, MaxDelay(p, n));
    }
  }

  /** Without Retry-After the total delay is at most the sum of the capped exponential delays. */
  lemma {:induction false} WaitIsBounded(p: RetryPolicy, os: seq<Outcome>)
    requires p.backoffBase >= 0.0 && p.backoffCap >= 0.0
    requires !p.respectRetryAfterHeader || forall o <- os :: !AsksForDelay(o)
    ensures 0.0 <= Waited(p, os, true) <= Waited(p, os, false) <= Cumulative(p, |os|)
  {
    if os != [] {
      var n := |os| - 1;
      WaitIsBounded(p, os[..n]);
      assert os[n] in os;
      DelayIsBounded(p, n, os[n]);
      assert Cumulative(p, n + 1) == Cumulative(p, n) + MaxDelay(p, n);
    }
  }

  // ---------------------------------------------------------------------
  // Retries that should wait and do not
  // ---------------------------------------------------------------------

  /** No negative base, cap or Retry-After, so that no wait is negative. */
  ghost predicate NonNegative(p: RetryPolicy, os: seq<Outcome>) {
    p.backoffBase >= 0.0 && p.backoffCap >= 0.0
    && forall o <- os :: AsksForDelay(o) ==> o.failure.retryAfter.value >= 0.0
  }

  /** The wait the policy decided on for the n-th outcome when that is a status; the httpx loop skips it. */
  function Skipped(p: RetryPolicy, os: seq<Outcome>, n: nat): real
    requires n < |os|
  {
    if os[n].Failed? && os[n].failure.Status? then Delay(p, n, os[n].failure, os[n].jitter) else 0.0
  }

  lemma {:induction false} DelayIsNotNegative(p: RetryPolicy, os: seq<Outcome>, n: nat)
    requires NonNegative(p, os) && n < |os|
    ensures os[n].Failed? ==> Delay(p, n, os[n].failure, os[n].jitter) >= 0.0
    ensures Skipped(p, os, n) >= 0.0
  {
    assert os[n] in os;
    MaxDelayIsNotNegative(p, n);
    if os[n].Failed? {
      JitterShrinks(os[n].jitter, MaxDelay(p, n));
    }
  }

  /**
   The httpx loop never waits longer than the policy decides, and as long exactly when
   every wait decided for a status, by Retry-After or by backoff, was zero.
   */
  lemma {:induction false} HttpxWaitsForNoStatus(p: RetryPolicy, os: seq<Outcome>)
    requires NonNegative(p, os)
    ensures Waited(p, os, true) <= Waited(p, os, false)
    ensures Waited(p, os, true) == Waited(p, os, false) <==> forall n :: 0 <= n < |os| ==> Skipped(p, os, n) == 0.0
  {
    if os != [] {
      var n := |os| - 1;
      assert forall o <- os[..n] :: o in os;
      HttpxWaitsForNoStatus(p, os[..n]);
      DelayIsNotNegative(p, os, n);
      assert forall k :: 0 <= k < n ==> Skipped(p, os, k) == Skipped(p, os[..n], k);
    }
  }

  /** A 503 that asks for five seconds is retried at once by the httpx loop; the policy decided to wait. */
  lemma {:induction false} RetryAfterIsSkipped(p: RetryPolicy, u: Jitter, result: HttpxResult, slept: real)
    requires p == RetryPolicy(3, None, None, None, None, {StatusCode(503)}, None, 1.0, 10.0, true)
    requires HttpxEnds(p, [Failed(Status(StatusCode(503), Some(5.0)), u), Answer], result, slept)
    ensures result == Response(1) && slept == 0.0
    ensures Waited(p, [Failed(Status(StatusCode(503), Some(5.0)), u)], false) == 5.0
  {
    var busy := Failed(Status(StatusCode(503), Some(5.0)), u);
    var outcomes := [busy, Answer];
    assert outcomes[..1] == [busy];
    BusyIsAbsorbed(p, busy);
    BusyWaits(p, busy);
    assert result.request == 1;
  }

  lemma {:induction false} BusyIsAbsorbed(p: RetryPolicy, busy: Outcome)
    requires busy.Failed? && busy.failure == Status(StatusCode(503), Some(5.0))
    requires p.allowedMethods == None && StatusCode(503) in p.statusForcelist
    requires p.totalRetries > 0 && RetriesForBucket(p, StatusBucket) > 0
    ensures Absorbed(p, [busy])
  {
    assert [busy][..0] == [];
    NextFailure(p, [busy], 0);
    WithinGrows(p, [], StatusBucket);
    assert [busy][..1] == [busy];
  }

  lemma {:induction false} BusyWaits(p: RetryPolicy, busy: Outcome)
    requires busy.Failed? && busy.failure == Status(StatusCode(503), Some(5.0)) && p.respectRetryAfterHeader
    ensures Waited(p, [busy], true) == 0.0 && Waited(p, [busy], false) == 5.0
  {
    assert [busy][..0] == [] && Waited(p, [], true) == 0.0 && Waited(p, [], false) == 0.0;
  }
}
