/**
 Active forgetting (adapters/memory/forgetting.py) and its use by the engine (engine.py):
 records decay with time and are dropped below a threshold, and of each scope only the
 best, as many as it has room for, are kept; the engine deletes the rows of all others.
 */
module Forgetting {
  import opened Basics

  datatype Record = Record(
    recordId: string, scope: string, key: string, memoryType: string, decay: real, confidence: real, updatedAt: real)

  datatype Policy = Policy(
    naturalDecayEnabled: bool, naturalDecayThreshold: real, naturalDecayRates: map<string, real>,
    capacityEvictionEnabled: bool, maxMemoriesPerScope: int)

  /** The exponential function and the current time. */
  datatype World = World(exp: real -> real, now: real)

  function Rate(p: Policy, memoryType: string): real {
    if memoryType in p.naturalDecayRates then p.naturalDecayRates[memoryType] else 0.01
  }

  function Decayed(r: Record, p: Policy, w: World): Record {
    var rate := Rate(p, r.memoryType);
    var days := (w.now - r.updatedAt) / 86400.0;
    if rate == 0.0 then r else r.(decay := r.decay * w.exp(-rate * if days > 0.0 then days else 0.0))
  }

  function Faded(r: Record, exp: real -> real, exponent: real): Record { r.(decay := r.decay * exp(exponent)) }

  /** exp turns sums into products. */
  ghost predicate Exponential(exp: real -> real) { exp(0.0) == 1.0 && forall x, y :: Multiplies(exp, x, y) }

  predicate Multiplies(exp: real -> real, x: real, y: real) { exp(x + y) == exp(x) * exp(y) }

  function Days(seconds: real): real { seconds / 86400.0 }

  /**
   Decay starts when the record was last updated, and goes on from wherever it has got to:
   each further second takes the part that the rate of the record's type, 1% a day if it
   has none, says. Nothing else of the record changes.
   */
  lemma {:induction false} DecayGoesOn(r: Record, p: Policy, w: World, later: real)
    requires Exponential(w.exp) && w.now <= later
    ensures r.updatedAt >= w.now ==> Decayed(r, p, w) == r
    ensures r.updatedAt <= w.now ==>
              var rate := if r.memoryType in p.naturalDecayRates then p.naturalDecayRates[r.memoryType] else 0.01;
              Decayed(r, p, World(w.exp, later)) == Faded(Decayed(r, p, w), w.exp, -rate * Days(later - w.now))
  {
    if r.updatedAt >= w.now {
      NoDecayYet(r, p, w);
    }
    if r.updatedAt <= w.now {
      DecayedSince(r, p, w);
      DecayedSince(r, p, World(w.exp, later));
      var rate := Rate(p, r.memoryType);
      FadingGoesOn(r, rate, Days(w.now - r.updatedAt), Days(later - w.now), Days(later - r.updatedAt), w.exp);
    }
  }

  lemma {:induction false} DecayedSince(r: Record, p: Policy, w: World)
    requires r.updatedAt <= w.now && w.exp(0.0) == 1.0
    ensures Decayed(r, p, w) == Faded(r, w.exp, -Rate(p, r.memoryType) * Days(w.now - r.updatedAt))
  {
    var days := Days(w.now - r.updatedAt);
    assert days >= 0.0;
    assert -0.0 * days == 0.0;
    assert r.decay * 1.0 == r.decay;
  }

  lemma {:induction false} FadingGoesOn(r: Record, rate: real, x: real, y: real, sum: real, exp: real -> real)
    requires Exponential(exp) && sum == x + y
    ensures Faded(r, exp, -rate * sum) == Faded(Faded(r, exp, -rate * x), exp, -rate * y)
  {
    DecayFactors(r.decay, rate, x, y, sum, exp);
    var once, twice := Faded(r, exp, -rate * sum), Faded(Faded(r, exp, -rate * x), exp, -rate * y);
    assert once.decay == twice.decay;
  }

  lemma {:induction false} NoDecayYet(r: Record, p: Policy, w: World)
    requires w.exp(0.0) == 1.0 && r.updatedAt >= w.now
    ensures Decayed(r, p, w) == r
  {
    assert (w.now - r.updatedAt) / 86400.0 <= 0.0;
    assert -Rate(p, r.memoryType) * 0.0 == 0.0;
  }

  lemma {:induction false} DecayFactors(decay: real, rate: real, x: real, y: real, sum: real, exp: real -> real)
    requires Exponential(exp) && sum == x + y
    ensures decay * exp(-rate * sum) == decay * exp(-rate * x) * exp(-rate * y)
  {
    ExpOfSum(exp, -rate * x, -rate * y, -rate * sum);
    Regrouped(decay, exp(-rate * x), exp(-rate * y));
  }

  lemma {:induction false} ExpOfSum(exp: real -> real, x: real, y: real, sum: real)
    requires Exponential(exp) && sum == x + y
    ensures exp(sum) == exp(x) * exp(y)
  {
    assert Multiplies(exp, x, y);
  }

  lemma {:induction false} Regrouped(a: real, b: real, c: real)
    ensures a * (b * c) == a * b * c
  {}

  /** The record with its decay brought up to date, where decay is enabled. */
  function Aged(r: Record, p: Policy, w: World): Record { if p.naturalDecayEnabled then Decayed(r, p, w) else r }

  predicate Fades(r: Record, p: Policy, w: World) {
    p.naturalDecayEnabled && Decayed(r, p, w).decay < p.naturalDecayThreshold
  }

  function Alive(rs: seq<Record>, p: Policy, w: World): seq<Record> {
    if rs == [] then []
    else
      var last := rs[|rs|-1];
      if Fades(last, p, w) then Alive(rs[..|rs|-1], p, w) else Alive(rs[..|rs|-1], p, w) + [Aged(last, p, w)]
  }

  // ---------------------------------------------------------------------
  // Capacity
  // ---------------------------------------------------------------------

  /** Strictly ahead by (decay * confidence, updated_at). */
  predicate Better(a: Record, b: Record) {
    var x, y := a.decay * a.confidence, b.decay * b.confidence;
    x > y || (x == y && a.updatedAt > b.updatedAt)
  }

  function InsertRanked(r: Record, rs: seq<Record>): seq<Record> {
    if rs == [] || Better(r, rs[0]) then [r] + rs else [rs[0]] + InsertRanked(r, rs[1..])
  }

  /** A stable sort, best first. */
  function Ranked(rs: seq<Record>): seq<Record> {
    if rs == [] then [] else InsertRanked(rs[|rs|-1], Ranked(rs[..|rs|-1]))
  }

  function InScope(rs: seq<Record>, s: string): seq<Record> {
    if rs == [] then []
    else
      var last := rs[|rs|-1];
      if last.scope == s then InScope(rs[..|rs|-1], s) + [last] else InScope(rs[..|rs|-1], s)
  }

  /** The scopes in the order they first occur. */
  function Scopes(rs: seq<Record>): seq<string> {
    if rs == [] then []
    else
      var earlier, s := Scopes(rs[..|rs|-1]), rs[|rs|-1].scope;
      if s in earlier then earlier else earlier + [s]
  }

  function KeptOf(group: seq<Record>, capacity: int): seq<Record> {
    if |group| <= capacity then group else TopK(Ranked(group), capacity)
  }

  function KeptIn(rs: seq<Record>, scopes: seq<string>, capacity: int): seq<Record> {
    if scopes == [] then []
    else KeptIn(rs, scopes[..|scopes|-1], capacity) + KeptOf(InScope(rs, scopes[|scopes|-1]), capacity)
  }

  function Survivors(rs: seq<Record>, p: Policy, w: World): seq<Record> {
    var alive := Alive(rs, p, w);
    if p.capacityEvictionEnabled then KeptIn(alive, Scopes(alive), p.maxMemoriesPerScope) else alive
  }

  method ApplyForgetting(records: seq<Record>, policy: Policy, w: World) returns (survivors: seq<Record>)
    ensures survivors == Survivors(records, policy, w)
  {
    survivors := [];
    for i := 0 to |records|
      invariant survivors == Alive(records[..i], policy, w)
    {
      assert records[..i+1][..i] == records[..i];
      var record := records[i];
      if policy.naturalDecayEnabled {
        record := Decayed(record, policy, w);
        if record.decay < policy.naturalDecayThreshold {
          continue;
        }
      }
      survivors := survivors + [record];
    }
    assert records[..|records|] == records;
    if policy.capacityEvictionEnabled {
      survivors := ApplyCapacityEviction(survivors, policy);
    }
  }

  /** byScope lists, scope by scope, the records of rs. */
  ghost predicate Groups(byScope: map<string, seq<Record>>, rs: seq<Record>) {
    forall s :: if s in byScope then byScope[s] == InScope(rs, s) && s in Scopes(rs) else s !in Scopes(rs)
  }

  function Appended(byScope: map<string, seq<Record>>, r: Record): map<string, seq<Record>> {
    byScope[r.scope := (if r.scope in byScope then byScope[r.scope] else []) + [r]]
  }

  lemma {:induction false} GroupsGrow(byScope: map<string, seq<Record>>, rs: seq<Record>, n: nat)
    requires n < |rs| && Groups(byScope, rs[..n])
    ensures Groups(Appended(byScope, rs[n]), rs[..n+1])
  {
    NextInScope(rs, n);
  }

  /** The records of every scope, and the scopes in the order a dict keeps them. */
  method GroupByScope(records: seq<Record>) returns (order: seq<string>, byScope: map<string, seq<Record>>)
    ensures order == Scopes(records)
    ensures forall i :: 0 <= i < |order| ==> order[i] in byScope && byScope[order[i]] == InScope(records, order[i])
  {
    order, byScope := [], map[];
    for i := 0 to |records|
      invariant order == Scopes(records[..i]) && Groups(byScope, records[..i])
    {
      NextInScope(records, i);
      GroupsGrow(byScope, records, i);
      var r := records[i];
      if r.scope !in byScope {
        order := order + [r.scope];
      }
      byScope := Appended(byScope, r);
    }
    assert records[..|records|] == records;
  }

  method ApplyCapacityEviction(records: seq<Record>, policy: Policy) returns (survivors: seq<Record>)
    ensures survivors == KeptIn(records, Scopes(records), policy.maxMemoriesPerScope)
  {
    var order, byScope := GroupByScope(records);
    survivors := [];
    for i := 0 to |order|
      invariant survivors == KeptIn(records, order[..i], policy.maxMemoriesPerScope)
    {
      NextKept(records, order, policy.maxMemoriesPerScope, i);
      var scopeRecords := byScope[order[i]];
      if |scopeRecords| <= policy.maxMemoriesPerScope {
        survivors := survivors + scopeRecords;
      } else {
        survivors := survivors + TopK(Ranked(scopeRecords), policy.maxMemoriesPerScope);
      }
    }
    assert order[..|order|] == order;
  }

  lemma {:induction false} NextKept(rs: seq<Record>, order: seq<string>, capacity: int, i: nat)
    requires i < |order|
    ensures KeptIn(rs, order[..i+1], capacity)
            == KeptIn(rs, order[..i], capacity) + KeptOf(InScope(rs, order[i]), capacity)
  {
    assert order[..i+1][..i] == order[..i];
  }

  lemma {:induction false} NextInScope(rs: seq<Record>, n: nat)
    requires n < |rs|
    ensures forall s :: InScope(rs[..n+1], s)
                        == if s == rs[n].scope then InScope(rs[..n], s) + [rs[n]] else InScope(rs[..n], s)
    ensures Scopes(rs[..n+1])
            == if rs[n].scope in Scopes(rs[..n]) then Scopes(rs[..n]) else Scopes(rs[..n]) + [rs[n].scope]
    ensures rs[n].scope !in Scopes(rs[..n]) ==> InScope(rs[..n], rs[n].scope) == []
  {
    assert rs[..n+1][..n] == rs[..n];
    ScopesAreThose(rs[..n], rs[n].scope);
  }

  lemma {:induction false} ScopesAreThose(rs: seq<Record>, s: string)
    ensures s in Scopes(rs) <==> InScope(rs, s) != []
    ensures Distinct(Scopes(rs))
    ensures forall r :: r in InScope(rs, s) <==> r in rs && r.scope == s
  {
    if rs != [] {
      ScopesAreThose(rs[..|rs|-1], s);
      assert rs == rs[..|rs|-1] + [rs[|rs|-1]];
    }
  }

  // ---------------------------------------------------------------------
  // What survives
  // ---------------------------------------------------------------------

  lemma {:induction false} InsertRankedInserts(r: Record, rs: seq<Record>)
    requires BestFirst(rs)
    ensures BestFirst(InsertRanked(r, rs)) && |InsertRanked(r, rs)| == |rs| + 1
    ensures forall x :: x in InsertRanked(r, rs) <==> x == r || x in rs
  {
    if rs != [] && !Better(r, rs[0]) {
      InsertRankedInserts(r, rs[1..]);
      assert rs == [rs[0]] + rs[1..];
      var tail := InsertRanked(r, rs[1..]);
      forall j | 0 <= j < |tail| ensures !Better(tail[j], rs[0]) {
        assert tail[j] in tail;
      }
    }
  }

  lemma {:induction false} InsertRankedKeepsDistinct(r: Record, rs: seq<Record>)
    requires BestFirst(rs) && DistinctIds(rs) && forall x <- rs :: x.recordId != r.recordId
    ensures DistinctIds(InsertRanked(r, rs))
  {
    if rs != [] && !Better(r, rs[0]) {
      InsertRankedKeepsDistinct(r, rs[1..]);
      InsertRankedInserts(r, rs[1..]);
      var tail := InsertRanked(r, rs[1..]);
      forall j | 0 <= j < |tail| ensures tail[j].recordId != rs[0].recordId {
        assert tail[j] in tail && rs[0] in rs;
      }
    }
  }

  ghost predicate BestFirst(rs: seq<Record>) { forall i, j :: 0 <= i < j < |rs| ==> !Better(rs[j], rs[i]) }

  ghost predicate DistinctIds(rs: seq<Record>) { forall i, j :: 0 <= i < j < |rs| ==> rs[i].recordId != rs[j].recordId }

  lemma {:induction false} RankedSorts(rs: seq<Record>)
    ensures BestFirst(Ranked(rs)) && |Ranked(rs)| == |rs|
    ensures forall x :: x in Ranked(rs) <==> x in rs
    ensures DistinctIds(rs) ==> DistinctIds(Ranked(rs))
  {
    if rs != [] {
      var front, last := rs[..|rs|-1], rs[|rs|-1];
      RankedSorts(front);
      InsertRankedInserts(last, Ranked(front));
      assert rs == front + [last];
      if DistinctIds(rs) {
        forall x | x in front ensures x.recordId != last.recordId {
          var i :| 0 <= i < |front| && front[i] == x;
          assert rs[i] == x;
        }
        InsertRankedKeepsDistinct(last, Ranked(front));
      }
    }
  }

  /** How many of n records a capacity keeps; a negative one takes that many off the end. */
  function Fitting(n: nat, capacity: int): int {
    if capacity >= 0 then Min(n, capacity) else Max(0, n + capacity)
  }

  /** Of one scope, as many are kept as capacity allows, and what is dropped is no better than what is kept. */
  lemma {:induction false} BestAreKept(group: seq<Record>, capacity: int)
    ensures var kept := KeptOf(group, capacity);
            |kept| == Fitting(|group|, capacity)
            && (forall k <- kept :: k in group)
            && (forall k <- kept, d <- group :: d in kept || !Better(d, k))
            && (DistinctIds(group) ==> DistinctIds(kept))
  {
    var kept, ranked := KeptOf(group, capacity), Ranked(group);
    RankedSorts(group);
    if |group| > capacity {
      forall k, d | k in kept && d in group && d !in kept ensures !Better(d, k) {
        var i :| 0 <= i < |kept| && kept[i] == k;
        assert d in ranked;
        var j :| 0 <= j < |ranked| && ranked[j] == d;
        assert forall m :: 0 <= m < |kept| ==> kept[m] == ranked[m] && kept[m] in kept;
      }
    }
  }

  lemma {:induction false} KeptInScopes(rs: seq<Record>, scopes: seq<string>, capacity: int)
    requires Distinct(scopes)
    ensures forall x :: x in KeptIn(rs, scopes, capacity) <==>
                        x.scope in scopes && x in KeptOf(InScope(rs, x.scope), capacity)
    ensures DistinctIds(rs) ==> DistinctIds(KeptIn(rs, scopes, capacity))
  {
    if scopes != [] {
      var n := |scopes| - 1;
      var front, s := scopes[..n], scopes[n];
      KeptInScopes(rs, front, capacity);
      assert scopes == front + [s];
      var group := InScope(rs, s);
      BestAreKept(group, capacity);
      ScopesAreThose(rs, s);
      var before, kept := KeptIn(rs, front, capacity), KeptOf(group, capacity);
      if DistinctIds(rs) {
        InScopeIsDistinct(rs, s);
        forall i, j | 0 <= i < |before| && 0 <= j < |kept| ensures before[i].recordId != kept[j].recordId {
          var x, y := before[i], kept[j];
          assert x in before && y in kept;
          BestAreKept(InScope(rs, x.scope), capacity);
          ScopesAreThose(rs, x.scope);
          IdsTell(rs, x, y);
        }
      }
    }
  }

  lemma {:induction false} IdsTell(rs: seq<Record>, x: Record, y: Record)
    requires DistinctIds(rs) && x in rs && y in rs
    ensures x.recordId == y.recordId <==> x == y
  {}

  lemma {:induction false} InScopeIsDistinct(rs: seq<Record>, s: string)
    requires DistinctIds(rs)
    ensures DistinctIds(InScope(rs, s))
  {
    if rs != [] {
      var front, last := rs[..|rs|-1], rs[|rs|-1];
      InScopeIsDistinct(front, s);
      ScopesAreThose(front, s);
      forall x | x in InScope(front, s) ensures x.recordId != last.recordId {
        var i :| 0 <= i < |front| && front[i] == x;
        assert rs[i] == x;
      }
    }
  }

  lemma {:induction false} AliveAreAged(rs: seq<Record>, p: Policy, w: World)
    ensures forall x :: x in Alive(rs, p, w) <==> exists r :: r in rs && !Fades(r, p, w) && x == Aged(r, p, w)
    ensures DistinctIds(rs) ==> DistinctIds(Alive(rs, p, w))
  {
    if rs != [] {
      var front, last := rs[..|rs|-1], rs[|rs|-1];
      AliveAreAged(front, p, w);
      assert rs == front + [last];
      forall x | x in Alive(rs, p, w) ensures exists r :: r in rs && !Fades(r, p, w) && x == Aged(r, p, w) {
        if x in Alive(front, p, w) {
          var r :| r in front && !Fades(r, p, w) && x == Aged(r, p, w);
          assert r in rs;
        } else {
          assert last in rs;
        }
      }
      forall x | x in Alive(front, p, w) && DistinctIds(rs) ensures x.recordId != last.recordId {
        var r :| r in front && !Fades(r, p, w) && x == Aged(r, p, w);
        var i :| 0 <= i < |front| && front[i] == r;
        assert rs[i] == r;
      }
    }
  }

  /**
   Every survivor is an aged record that did not fade. With eviction on, each scope keeps
   as many as fit, and whatever else did not fade is no better than any of them.
   */
  lemma {:induction false} SurvivorsAreTheBest(rs: seq<Record>, p: Policy, w: World)
    ensures var alive, survivors := Alive(rs, p, w), Survivors(rs, p, w);
            (forall x <- survivors :: x in alive)
            && (DistinctIds(rs) ==> DistinctIds(survivors))
            && (!p.capacityEvictionEnabled ==> survivors == alive)
            && (p.capacityEvictionEnabled ==>
                  forall k <- survivors, d <- alive :: d.scope == k.scope && d !in survivors ==> !Better(d, k))
  {
    var alive, survivors := Alive(rs, p, w), Survivors(rs, p, w);
    AliveAreAged(rs, p, w);
    if p.capacityEvictionEnabled {
      ScopesAreThose(alive, "");
      KeptInScopes(alive, Scopes(alive), p.maxMemoriesPerScope);
      forall k | k in survivors
        ensures k in alive && forall d <- alive :: d.scope == k.scope && d !in survivors ==> !Better(d, k)
      {
        BestAreKept(InScope(alive, k.scope), p.maxMemoriesPerScope);
        ScopesAreThose(alive, k.scope);
      }
    }
  }

  /** What eviction drops scores no higher than what it keeps in the scope; of equal scores the later updated stay. */
  lemma {:induction false} DroppedScoreNoHigher(rs: seq<Record>, p: Policy, w: World, kept: Record, dropped: Record)
    requires p.capacityEvictionEnabled && kept in Survivors(rs, p, w)
    requires dropped in Alive(rs, p, w) && dropped !in Survivors(rs, p, w) && dropped.scope == kept.scope
    ensures dropped.decay * dropped.confidence <= kept.decay * kept.confidence
    ensures dropped.decay * dropped.confidence == kept.decay * kept.confidence ==> dropped.updatedAt <= kept.updatedAt
  {
    SurvivorsAreTheBest(rs, p, w);
    NotBetter(dropped, kept);
  }

  lemma {:induction false} NotBetter(a: Record, b: Record)
    requires !Better(a, b)
    ensures a.decay * a.confidence <= b.decay * b.confidence
    ensures a.decay * a.confidence == b.decay * b.confidence ==> a.updatedAt <= b.updatedAt
  {}

  /** Every scope is filled up to its capacity, never beyond. */
  lemma {:induction false} ScopesAreWithinCapacity(rs: seq<Record>, p: Policy, w: World, s: string)
    ensures |InScope(Survivors(rs, p, w), s)|
            == if p.capacityEvictionEnabled then Fitting(|InScope(Alive(rs, p, w), s)|, p.maxMemoriesPerScope)
               else |InScope(Alive(rs, p, w), s)|
  {
    var alive := Alive(rs, p, w);
    ScopesAreThose(alive, s);
    ScopeOfKept(alive, Scopes(alive), p.maxMemoriesPerScope, s);
    BestAreKept(InScope(alive, s), p.maxMemoriesPerScope);
  }

  lemma {:induction false} ScopeOfKept(rs: seq<Record>, scopes: seq<string>, capacity: int, s: string)
    requires Distinct(scopes)
    ensures InScope(KeptIn(rs, scopes, capacity), s) == if s in scopes then KeptOf(InScope(rs, s), capacity) else []
  {
    if scopes != [] {
      var n := |scopes| - 1;
      var front, last := scopes[..n], scopes[n];
      ScopeOfKept(rs, front, capacity, s);
      assert scopes == front + [last];
      var kept := KeptOf(InScope(rs, last), capacity);
      InScopeOfBoth(KeptIn(rs, front, capacity), kept, s);
      BestAreKept(InScope(rs, last), capacity);
      ScopesAreThose(rs, last);
      AllInScope(kept, last, s);
    }
  }

  lemma {:induction false} InScopeOfBoth(a: seq<Record>, b: seq<Record>, s: string)
    ensures InScope(a + b, s) == InScope(a, s) + InScope(b, s)
  {
    if b == [] {
      assert a + b == a;
    } else {
      InScopeOfBoth(a, b[..|b|-1], s);
      assert (a + b)[..|a + b|-1] == a + b[..|b|-1];
    }
  }

  lemma {:induction false} AllInScope(rs: seq<Record>, t: string, s: string)
    requires forall r <- rs :: r.scope == t
    ensures InScope(rs, s) == if s == t then rs else []
  {
    if rs != [] {
      AllInScope(rs[..|rs|-1], t, s);
      assert rs == rs[..|rs|-1] + [rs[|rs|-1]];
      assert rs[|rs|-1] in rs;
    }
  }

  // ---------------------------------------------------------------------
  // The engine
  // ---------------------------------------------------------------------

  /** record_id is the primary key and (scope, key) is unique. */
  ghost predicate WellKeyed(rows: seq<Record>) {
    DistinctIds(rows)
    && forall i, j :: 0 <= i < j < |rows| ==> rows[i].scope != rows[j].scope || rows[i].key != rows[j].key
  }

  function Without(rows: seq<Record>, key: string, scope: string): seq<Record> {
    if rows == [] then []
    else
      var last := rows[|rows|-1];
      if last.scope == scope && last.key == key then Without(rows[..|rows|-1], key, scope)
      else Without(rows[..|rows|-1], key, scope) + [last]
  }

  class MemoryStore {
    var rows: seq<Record>

    constructor (rows: seq<Record>)
      ensures this.rows == rows
    {
      this.rows := rows;
    }

    method Delete(key: string, scope: string)
      modifies this
      ensures rows == Without(old(rows), key, scope)
    {
      rows := Without(rows, key, scope);
    }
  }

  function IdsOf(rs: seq<Record>): set<string> { set r | r in rs :: r.recordId }

  /** The rows whose id is listed, in their order. */
  function Retained(rows: seq<Record>, ids: set<string>): seq<Record> {
    if rows == [] then []
    else
      var last := rows[|rows|-1];
      if last.recordId in ids then Retained(rows[..|rows|-1], ids) + [last] else Retained(rows[..|rows|-1], ids)
  }

  lemma {:induction false} RetainedMembers(rows: seq<Record>, ids: set<string>)
    ensures forall r :: r in Retained(rows, ids) <==> r in rows && r.recordId in ids
  {
    if rows != [] {
      RetainedMembers(rows[..|rows|-1], ids);
      assert rows == rows[..|rows|-1] + [rows[|rows|-1]];
    }
  }

  lemma {:induction false} RetainedCount(rows: seq<Record>, ids: set<string>)
    requires DistinctIds(rows) && ids <= IdsOf(rows)
    ensures |Retained(rows, ids)| == |ids|
  {
    if rows == [] {
      assert ids == {};
    } else {
      var front, last := rows[..|rows|-1], rows[|rows|-1];
      var id := last.recordId;
      assert rows == front + [last];
      assert IdsOf(rows) == IdsOf(front) + {id};
      forall r | r in front ensures r.recordId != id {
        var i :| 0 <= i < |front| && front[i] == r;
        assert rows[i] == r;
      }
      RetainedCount(front, ids - {id});
      SameRetained(front, ids, ids - {id});
    }
  }

  lemma {:induction false} SameRetained(rows: seq<Record>, a: set<string>, b: set<string>)
    requires forall r <- rows :: r.recordId in a <==> r.recordId in b
    ensures Retained(rows, a) == Retained(rows, b)
  {
    if rows != [] {
      assert rows[|rows|-1] in rows;
      SameRetained(rows[..|rows|-1], a, b);
    }
  }

  lemma {:induction false} WithoutGrows(rows: seq<Record>, last: Record, key: string, scope: string)
    ensures Without(rows + [last], key, scope)
            == if last.scope == scope && last.key == key then Without(rows, key, scope)
               else Without(rows, key, scope) + [last]
  {}

  /** No other row shares the id, or the scope and key, of r. */
  lemma {:induction false} OnlyOne(rows: seq<Record>, r: Record, x: Record)
    requires WellKeyed(rows) && r in rows && x in rows && x != r
    ensures x.recordId != r.recordId && (x.scope != r.scope || x.key != r.key)
  {}

  ghost predicate Apart(rows: seq<Record>, r: Record) {
    forall x <- rows :: x.recordId != r.recordId && (x.scope != r.scope || x.key != r.key)
  }

  lemma {:induction false} DeletingLast(front: seq<Record>, ids: set<string>, r: Record)
    requires Apart(front, r) && r.recordId in ids
    ensures Without(Retained(front, ids) + [r], r.key, r.scope) == Retained(front, ids - {r.recordId})
  {
    SameRetained(front, ids, ids - {r.recordId});
    RetainedMembers(front, ids);
    NothingToDelete(Retained(front, ids), r.key, r.scope);
    WithoutGrows(Retained(front, ids), r, r.key, r.scope);
  }

  lemma {:induction false} LastIsApart(rows: seq<Record>)
    requires WellKeyed(rows) && rows != []
    ensures Apart(rows[..|rows|-1], rows[|rows|-1])
  {}

  lemma {:induction false} DeletingOne(rows: seq<Record>, ids: set<string>, r: Record)
    requires WellKeyed(rows) && r in rows && r.recordId in ids
    ensures Without(Retained(rows, ids), r.key, r.scope) == Retained(rows, ids - {r.recordId})
  {
    var front, last := rows[..|rows|-1], rows[|rows|-1];
    if r == last {
      LastIsApart(rows);
      DeletingLast(front, ids, r);
    } else {
      assert rows == front + [last];
      DeletingOne(front, ids, r);
      OnlyOne(rows, r, last);
      WithoutGrows(Retained(front, ids), last, r.key, r.scope);
    }
  }

  lemma {:induction false} NothingToDelete(rows: seq<Record>, key: string, scope: string)
    requires forall r <- rows :: r.scope != scope || r.key != key
    ensures Without(rows, key, scope) == rows
  {
    if rows != [] {
      assert rows[|rows|-1] in rows;
      NothingToDelete(rows[..|rows|-1], key, scope);
      assert rows == rows[..|rows|-1] + [rows[|rows|-1]];
    }
  }

  lemma {:induction false} AllRetained(rows: seq<Record>)
    ensures Retained(rows, IdsOf(rows)) == rows
  {
    if rows != [] {
      var front, last := rows[..|rows|-1], rows[|rows|-1];
      assert rows == front + [last];
      AllRetained(front);
      assert IdsOf(rows) == IdsOf(front) + {last.recordId};
      SameRetained(front, IdsOf(rows), IdsOf(front));
    }
  }

  lemma {:induction false} DistinctCount(rs: seq<Record>)
    requires DistinctIds(rs)
    ensures |IdsOf(rs)| == |rs|
  {
    AllRetained(rs);
    RetainedCount(rs, IdsOf(rs));
  }

  /**
   The store is left with exactly the survivors' rows, unchanged: the aged decay is not
   written back. The returned count is the number of rows that went.
   */
  method RunForgetting(store: MemoryStore, policy: Policy, w: World) returns (evicted: int)
    requires WellKeyed(store.rows)
    modifies store
    ensures store.rows == Retained(old(store.rows), IdsOf(Survivors(old(store.rows), policy, w)))
    ensures evicted == |old(store.rows)| - |store.rows|
    ensures |store.rows| == |Survivors(old(store.rows), policy, w)|
  {
    var allRecords := store.rows;
    var survivors := ApplyForgetting(allRecords, policy, w);
    evicted := |allRecords| - |survivors|;
    SurvivorsAreRows(allRecords, policy, w);
    if evicted > 0 {
      DeleteOthers(store, allRecords, IdsOf(survivors));
    }
  }

  method DeleteOthers(store: MemoryStore, allRecords: seq<Record>, survivorIds: set<string>)
    requires store.rows == allRecords && WellKeyed(allRecords) && survivorIds <= IdsOf(allRecords)
    modifies store
    ensures store.rows == Retained(allRecords, survivorIds)
  {
    AllRetained(allRecords);
    assert IdsOf(allRecords) - Doomed(allRecords, survivorIds, 0) == IdsOf(allRecords);
    for i := 0 to |allRecords|
      invariant store.rows == Retained(allRecords, IdsOf(allRecords) - Doomed(allRecords, survivorIds, i))
    {
      NextDoomed(allRecords, survivorIds, i);
      var record := allRecords[i];
      if record.recordId !in survivorIds {
        store.Delete(record.key, record.scope);
      }
    }
    assert allRecords[..|allRecords|] == allRecords;
    assert IdsOf(allRecords) - Doomed(allRecords, survivorIds, |allRecords|) == survivorIds;
  }

  /** The ids deleted after n records were looked at. */
  ghost function Doomed(rows: seq<Record>, ids: set<string>, n: nat): set<string>
    requires n <= |rows|
  {
    IdsOf(rows[..n]) - ids
  }

  lemma {:induction false} NextDoomed(rows: seq<Record>, ids: set<string>, n: nat)
    requires WellKeyed(rows) && n < |rows|
    ensures var left, r := IdsOf(rows) - Doomed(rows, ids, n), rows[n];
            IdsOf(rows) - Doomed(rows, ids, n + 1) == if r.recordId in ids then left else left - {r.recordId}
    ensures var left, r := IdsOf(rows) - Doomed(rows, ids, n), rows[n];
            r.recordId !in ids ==> Without(Retained(rows, left), r.key, r.scope) == Retained(rows, left - {r.recordId})
  {
    var left, r := IdsOf(rows) - Doomed(rows, ids, n), rows[n];
    assert rows[..n+1] == rows[..n] + [r];
    assert IdsOf(rows[..n+1]) == IdsOf(rows[..n]) + {r.recordId};
    FirstWithItsId(rows, n);
    if r.recordId !in ids {
      DeletingOne(rows, left, r);
    }
  }

  lemma {:induction false} FirstWithItsId(rows: seq<Record>, n: nat)
    requires DistinctIds(rows) && n < |rows|
    ensures rows[n].recordId !in IdsOf(rows[..n]) && rows[n].recordId in IdsOf(rows)
  {}

  lemma {:induction false} SurvivorsAreRows(rows: seq<Record>, p: Policy, w: World)
    requires DistinctIds(rows)
    ensures var survivors := Survivors(rows, p, w);
            IdsOf(survivors) <= IdsOf(rows) && |IdsOf(survivors)| == |survivors|
            && |Retained(rows, IdsOf(survivors))| == |survivors| <= |rows|
            && (|survivors| == |rows| ==> Retained(rows, IdsOf(survivors)) == rows)
  {
    var survivors := Survivors(rows, p, w);
    SurvivorsAreTheBest(rows, p, w);
    AliveAreAged(rows, p, w);
    DistinctCount(survivors);
    DistinctCount(rows);
    RetainedCount(rows, IdsOf(survivors));
    SubsetCount(IdsOf(survivors), IdsOf(rows));
    AllRetained(rows);
  }
}
