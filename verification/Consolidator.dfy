/** EntityStateConsolidator.consolidate (dreamer_consolidate.py) over the entity-state view. */
module Consolidator {
  import opened Basics
  import opened EntityState
  import opened EntityStateTable
  import opened FactIdentity

  datatype ConsolidationReport = ConsolidationReport(
    triplesScanned: int, triplesResolved: int, rowsClosed: int, rowsPropagated: int,
    skippedAccumulate: int, skippedMultiValue: int)

  // ---------------------------------------------------------------------
  // One triple at a time
  // ---------------------------------------------------------------------

  lemma {:induction false} SameActiveRows(a: seq<Row>, b: seq<Row>, t: Triple)
    requires |a| == |b| && forall i :: 0 <= i < |a| ==> a[i] == b[i] || (a[i].triple != t && b[i].triple != t)
    ensures ActiveRows(a, t) == ActiveRows(b, t)
  {
    if a != [] {
      SameActiveRows(a[..|a|-1], b[..|b|-1], t);
    }
  }

  /** Triples not yet visited look as they did at the start. */
  lemma {:induction false} UnvisitedIsUntouched(rows: seq<Row>, done: set<Triple>, t: Triple)
    requires t !in done
    ensures ActiveRows(Consolidated(rows, done), t) == ActiveRows(rows, t)
  {
    SameActiveRows(Consolidated(rows, done), rows, t);
  }

  /** A triple that does not repeat can be skipped. */
  lemma {:induction false} SkippingChangesNothing(rows: seq<Row>, done: set<Triple>, t: Triple)
    requires !Repeats(rows, t)
    ensures Consolidated(rows, done + {t}) == Consolidated(rows, done)
    ensures forall r :: Superseded(rows, done + {t}, r) <==> Superseded(rows, done, r)
  {}

  /** Among the active rows of a triple, the newest is told by its state id. */
  lemma {:induction false} KeeperIsTheNewest(rows: seq<Row>, keeper: Row, r: Row)
    requires WellKeyed(rows) && IsNewest(rows, keeper) && r in rows && IsActive(r, keeper.triple)
    ensures r.stateId == keeper.stateId <==> IsNewest(rows, r)
    ensures IsNewest(rows, r) <==> r == keeper
  {}

  /** Closing all but the newest row of a repeating triple is one more step of the simultaneous change. */
  lemma {:induction false} ClosingIsOneStep(rows: seq<Row>, done: set<Triple>, t: Triple, keeper: Row)
    requires WellKeyed(rows) && t !in done && Repeats(rows, t) && keeper.triple == t && IsNewest(rows, keeper)
    ensures CloseVictims(Consolidated(rows, done), t, keeper.stateId, keeper.validFrom)
            == Consolidated(rows, done + {t})
  {
    var now := Consolidated(rows, done);
    var closed, after := CloseVictims(now, t, keeper.stateId, keeper.validFrom), Consolidated(rows, done + {t});
    NewestExists(rows, keeper);
    NewestIsUnique(rows, Newest(rows, t), keeper);
    forall i | 0 <= i < |rows| ensures closed[i] == after[i] {
      var r := rows[i];
      assert r in rows;
      if IsActive(r, t) {
        KeeperIsTheNewest(rows, keeper, r);
        assert now[i] == r;
      }
    }
  }

  ghost function SupersededRows(rows: seq<Row>, ts: set<Triple>): set<Row> {
    set r | r in rows && Superseded(rows, ts, r)
  }

  /** The rows superseded by one step more are the victims of that step. */
  lemma {:induction false} ClosingIsOneMore(rows: seq<Row>, done: set<Triple>, t: Triple, keeper: Row)
    requires WellKeyed(rows) && t !in done && Repeats(rows, t) && keeper.triple == t && IsNewest(rows, keeper)
    ensures SupersededRows(rows, done + {t}) ==
            SupersededRows(rows, done) + Victims(Consolidated(rows, done), t, keeper.stateId)
  {
    forall r ensures Superseded(rows, done + {t}, r) <==>
                     Superseded(rows, done, r) || (r in Consolidated(rows, done) && Victim(r, t, keeper.stateId)) {
      UnvisitedRowStays(rows, done, t, r);
      if r in rows && IsActive(r, t) {
        KeeperIsTheNewest(rows, keeper, r);
      }
    }
  }

  lemma {:induction false} UnvisitedRowStays(rows: seq<Row>, done: set<Triple>, t: Triple, r: Row)
    requires t !in done
    ensures IsActive(r, t) ==> (r in rows <==> r in Consolidated(rows, done))
  {
    MembersMove(rows, done);
    if r in rows && IsActive(r, t) {
      assert ConsolidatedRow(rows, done, r) == r;
    }
  }

  // ---------------------------------------------------------------------
  // The consolidator
  // ---------------------------------------------------------------------

  /** What a visit finds: an open set, several values, or one value held by several rows. */
  datatype Verdict = OpenSet | MultiValue | SingleValue

  function Judge(active: seq<Row>): Verdict {
    if exists r <- active :: r.accumulate then OpenSet
    else if |set r | r in active :: r.value| > 1 then MultiValue
    else SingleValue
  }

  /** The triples of rows that a run over the namespace visits. */
  ghost function Conflicted(rows: seq<Row>, namespace: Option<string>): set<Triple> {
    set r | r in rows && InScope(namespace, r.triple) && |ActiveRows(rows, r.triple)| >= 2 :: r.triple
  }

  /** The triples with a given verdict. */
  ghost function Judged(rows: seq<Row>, ts: set<Triple>, v: Verdict): set<Triple> {
    set t | t in ts && Judge(ActiveRows(rows, t)) == v
  }

  lemma {:induction false} JudgedGrows(rows: seq<Row>, ts: set<Triple>, t: Triple, v: Verdict)
    requires t !in ts
    ensures |Judged(rows, ts + {t}, v)| == |Judged(rows, ts, v)| + if Judge(ActiveRows(rows, t)) == v then 1 else 0
  {
    assert Judged(rows, ts + {t}, v) == Judged(rows, ts, v) + if Judge(ActiveRows(rows, t)) == v then {t} else {};
  }

  lemma {:induction false} RepeatsByRows(rows: seq<Row>, t: Triple)
    requires WellKeyed(rows)
    ensures Repeats(rows, t) <==> |ActiveRows(rows, t)| >= 2 && Judge(ActiveRows(rows, t)) == SingleValue
  {
    ActiveRowsAreActive(rows, t);
    ActiveRowsAreDistinct(rows, t);
    var active := ActiveRows(rows, t);
    var values := set r | r in active :: r.value;
    if |active| >= 2 {
      assert active[0] in active && active[0].value in values;
      if |values| <= 1 {
        forall r, s | r in active && s in active ensures r.value == s.value {
          SingletonSet(values, r.value, s.value);
        }
      }
      if Repeats(rows, t) {
        assert values == {active[0].value};
      }
    }
  }

  ghost predicate HasTag(rows: seq<Row>, t: Triple) { exists r :: r in rows && IsActive(r, t) && r.accumulate }

  ghost predicate HasTwoValues(rows: seq<Row>, t: Triple) {
    exists r, s :: r in rows && s in rows && IsActive(r, t) && IsActive(s, t) && r.value != s.value
  }

  /** A tag makes an open set, whatever the values; without one, two values make several. */
  lemma {:induction false} VerdictsByRows(rows: seq<Row>, t: Triple)
    ensures Judge(ActiveRows(rows, t)) == if HasTag(rows, t) then OpenSet
                                          else if HasTwoValues(rows, t) then MultiValue else SingleValue
  {
    ActiveRowsAreActive(rows, t);
    var active := ActiveRows(rows, t);
    var values := set r | r in active :: r.value;
    if HasTwoValues(rows, t) {
      var r, s :| r in rows && s in rows && IsActive(r, t) && IsActive(s, t) && r.value != s.value;
      if |values| <= 1 {
        SingletonSet(values, r.value, s.value);
      }
    } else if |values| > 1 {
      TwoElements(values);
    }
  }

  lemma {:induction false} TwoElements<T>(s: set<T>)
    requires |s| > 1
    ensures exists a, b :: a in s && b in s && a != b
  {
    var a :| a in s;
    assert |s - {a}| > 0;
    var b :| b in s - {a};
  }

  /** The report counts the visited triples that hold a tag, those that hold two values without one, and the others. */
  ghost predicate CountsByRows(report: ConsolidationReport, rows: seq<Row>, ts: set<Triple>) {
    report.triplesScanned == |ts|
    && report.skippedAccumulate == |set t | t in ts && HasTag(rows, t)|
    && report.skippedMultiValue == |set t | t in ts && !HasTag(rows, t) && HasTwoValues(rows, t)|
    && report.triplesResolved == |set t | t in ts && !HasTag(rows, t) && !HasTwoValues(rows, t)|
  }

  lemma {:induction false} TalliesAreByRows(report: ConsolidationReport, rows: seq<Row>, ts: set<Triple>)
    requires Tallied(report, rows, ts)
    ensures CountsByRows(report, rows, ts)
  {
    forall t | t in ts
      ensures Judge(ActiveRows(rows, t)) == if HasTag(rows, t) then OpenSet
                                            else if HasTwoValues(rows, t) then MultiValue else SingleValue
    {
      VerdictsByRows(rows, t);
    }
    assert Judged(rows, ts, OpenSet) == set t | t in ts && HasTag(rows, t);
    assert Judged(rows, ts, MultiValue) == set t | t in ts && !HasTag(rows, t) && HasTwoValues(rows, t);
    assert Judged(rows, ts, SingleValue) == set t | t in ts && !HasTag(rows, t) && !HasTwoValues(rows, t);
  }

  lemma {:induction false} SingletonSet<T>(s: set<T>, a: T, b: T)
    requires |s| <= 1 && a in s && b in s
    ensures a == b
  {
    assert |s - {a}| == |s| - 1;
  }

  method MaxByValidFrom(active: seq<Row>) returns (keeper: Row)
    requires active != []
    ensures keeper in active && forall r <- active :: r.validFrom <= keeper.validFrom
  {
    keeper := active[0];
    for i := 1 to |active|
      invariant keeper in active
      invariant forall j :: 0 <= j < i ==> active[j].validFrom <= keeper.validFrom
    {
      if active[i].validFrom > keeper.validFrom {
        keeper := active[i];
      }
    }
  }

  /** The two tables as one value: the rows, and the open memories behind them. */
  datatype Store = Store(rows: seq<Row>, open: set<string>)

  /** The store after the triples ts have been consolidated. */
  ghost function After(sha: Hash, s: Store, ts: set<Triple>): Store {
    Store(Consolidated(s.rows, ts), s.open - MemoryIds(sha, SupersededRows(s.rows, ts)))
  }

  /** Skipping and superseding, as steps of a run. */
  lemma {:induction false} VisitIsOneStep(sha: Hash, rows: seq<Row>, open: set<string>, done: set<Triple>, t: Triple,
                                          keeper: Row)
    requires WellKeyed(rows) && t !in done
    requires Repeats(rows, t) ==> keeper.triple == t && IsNewest(rows, keeper)
    ensures !Repeats(rows, t) ==>
              Consolidated(rows, done + {t}) == Consolidated(rows, done)
              && SupersededRows(rows, done + {t}) == SupersededRows(rows, done)
    ensures Repeats(rows, t) ==>
              var now := Consolidated(rows, done);
              CloseVictims(now, t, keeper.stateId, keeper.validFrom) == Consolidated(rows, done + {t})
              && open - MemoryIds(sha, SupersededRows(rows, done)) - MemoryIds(sha, Victims(now, t, keeper.stateId))
                 == open - MemoryIds(sha, SupersededRows(rows, done + {t}))
              && exists r :: r in now && Victim(r, t, keeper.stateId)
  {
    if Repeats(rows, t) {
      ClosingIsOneStep(rows, done, t, keeper);
      ClosingIsOneMore(rows, done, t, keeper);
      MemoryIdsJoin(sha, SupersededRows(rows, done), Victims(Consolidated(rows, done), t, keeper.stateId));
      VictimExists(rows, done, t, keeper);
    } else {
      SkippingChangesNothing(rows, done, t);
    }
  }

  class EntityStateConsolidator {
    const view: EntityStateView

    constructor (view: EntityStateView)
      ensures this.view == view
    {
      this.view := view;
    }

    ghost function Current(): Store
      reads this, view
    {
      Store(view.rows, view.openMemories)
    }

    /** The visit to one conflicted triple. */
    method ConsolidateTriple(t: Triple, ghost start: Store, ghost done: set<Triple>)
      returns (verdict: Verdict, closed: nat, propagated: nat)
      requires WellKeyed(start.rows) && Current() == After(view.sha, start, done) && t !in done
      requires |ActiveRows(start.rows, t)| >= 2
      modifies view`rows, view`openMemories
      ensures Current() == After(view.sha, start, done + {t})
      ensures closed == ActiveCount(old(view.rows)) - ActiveCount(view.rows)
      ensures propagated == |old(view.openMemories)| - |view.openMemories|
      ensures verdict == Judge(ActiveRows(start.rows, t))
      ensures closed > 0 <==> verdict == SingleValue
      ensures verdict != SingleValue ==> propagated == 0
    {
      ghost var rows := start.rows;
      UnvisitedIsUntouched(rows, done, t);
      RepeatsByRows(rows, t);
      var active := view.GetActive(t);
      var keeper := MaxByValidFrom(active);
      assert keeper.triple == t && IsNewest(rows, keeper) by {
        ActiveRowsAreActive(rows, t);
      }
      VisitIsOneStep(view.sha, rows, start.open, done, t, keeper);
      verdict, closed, propagated := Judge(active), 0, 0;
      if verdict == SingleValue {
        closed, propagated := view.Supersede(t, keeper.stateId, keeper.validFrom);
      }
    }

    /**
     One run: every exact duplicate of a conflicted triple ends where its newest row
     begins, and nothing else changes.
     */
    method Consolidate(namespace: Option<string>) returns (report: ConsolidationReport)
      requires WellKeyed(view.rows)
      modifies view`rows, view`openMemories
      ensures Current() == After(view.sha, old(Current()), Conflicted(old(view.rows), namespace))
      ensures CountsByRows(report, old(view.rows), Conflicted(old(view.rows), namespace))
      ensures report.rowsClosed == ActiveCount(old(view.rows)) - ActiveCount(view.rows)
      ensures report.rowsPropagated == |old(view.openMemories)| - |view.openMemories|
    {
      var triples := view.ListConflictedTriples(namespace);
      report := ConsolidationReport(0, 0, 0, 0, 0, 0);
      ghost var start, done := Current(), {};
      NothingDone(view.sha, start);
      for i := 0 to |triples|
        invariant done == Visited(triples, i)
        invariant Current() == After(view.sha, start, done)
        invariant Tallied(report, start.rows, done)
        invariant report.rowsClosed == ActiveCount(start.rows) - ActiveCount(view.rows)
        invariant report.rowsPropagated == |start.open| - |view.openMemories|
      {
        var t := triples[i];
        VisitedGrows(triples, i);
        assert |ActiveRows(start.rows, t)| >= 2 by { assert t in triples; }
        var verdict, closed, propagated := ConsolidateTriple(t, start, done);
        report := Tally(report, verdict, closed, propagated, t, start.rows, done);
        done := done + {t};
      }
      ListedAreConflicted(start.rows, namespace, triples);
      TalliesAreByRows(report, start.rows, done);
    }

    /** Count one visit. */
    method Tally(report: ConsolidationReport, verdict: Verdict, closed: nat, propagated: nat,
                 ghost t: Triple, ghost rows: seq<Row>, ghost done: set<Triple>)
      returns (report': ConsolidationReport)
      requires Tallied(report, rows, done) && t !in done && verdict == Judge(ActiveRows(rows, t))
      requires (closed > 0 <==> verdict == SingleValue) && (verdict != SingleValue ==> propagated == 0)
      ensures Tallied(report', rows, done + {t})
      ensures report'.rowsClosed == report.rowsClosed + closed
      ensures report'.rowsPropagated == report.rowsPropagated + propagated
    {
      JudgedGrows(rows, done, t, SingleValue);
      JudgedGrows(rows, done, t, OpenSet);
      JudgedGrows(rows, done, t, MultiValue);
      report' := report.(triplesScanned := report.triplesScanned + 1);
      match verdict {
        case OpenSet =>
          report' := report'.(skippedAccumulate := report.skippedAccumulate + 1);
        case MultiValue =>
          report' := report'.(skippedMultiValue := report.skippedMultiValue + 1);
        case SingleValue =>
          report' := report'.(rowsClosed := report.rowsClosed + closed,
                              rowsPropagated := report.rowsPropagated + propagated);
          if closed > 0 {
            report' := report'.(triplesResolved := report.triplesResolved + 1);
          }
      }
    }
  }

  /** The report counts the visited triples by verdict. */
  ghost predicate Tallied(report: ConsolidationReport, rows: seq<Row>, ts: set<Triple>) {
    report.triplesScanned == |ts| && report.triplesResolved == |Judged(rows, ts, SingleValue)|
    && report.skippedAccumulate == |Judged(rows, ts, OpenSet)|
    && report.skippedMultiValue == |Judged(rows, ts, MultiValue)|
  }

  ghost function Visited(triples: seq<Triple>, i: nat): set<Triple>
    requires i <= |triples|
  {
    set t | t in triples[..i]
  }

  lemma {:induction false} VisitedGrows(triples: seq<Triple>, i: nat)
    requires Distinct(triples) && i < |triples|
    ensures triples[i] !in Visited(triples, i) && Visited(triples, i + 1) == Visited(triples, i) + {triples[i]}
  {}

  lemma {:induction false} NothingDone(sha: Hash, s: Store)
    ensures After(sha, s, {}) == s
  {}

  lemma {:induction false} VictimExists(rows: seq<Row>, done: set<Triple>, t: Triple, keeper: Row)
    requires WellKeyed(rows) && t !in done && Repeats(rows, t) && keeper.triple == t && IsNewest(rows, keeper)
    ensures exists r :: r in Consolidated(rows, done) && Victim(r, t, keeper.stateId)
  {
    var a, b :| a in rows && b in rows && a != b && IsActive(a, t) && IsActive(b, t);
    var r := if a == keeper then b else a;
    KeeperIsTheNewest(rows, keeper, r);
    UnvisitedRowStays(rows, done, t, r);
  }

  lemma {:induction false} ListedAreConflicted(rows: seq<Row>, namespace: Option<string>, triples: seq<Triple>)
    requires forall t :: t in triples <==> InScope(namespace, t) && |ActiveRows(rows, t)| >= 2
    ensures Conflicted(rows, namespace) == Visited(triples, |triples|)
  {
    assert triples[..|triples|] == triples;
    forall t | t in triples ensures t in Conflicted(rows, namespace) {
      ActiveRowsAreActive(rows, t);
      assert ActiveRows(rows, t)[0] in ActiveRows(rows, t);
    }
  }

  // ---------------------------------------------------------------------
  // What a run means
  // ---------------------------------------------------------------------

  /** After a run nothing in scope repeats, so a second run, whatever it visits, changes nothing. */
  lemma {:induction false} RunIsIdempotent(rows: seq<Row>, namespace: Option<string>)
    requires WellKeyed(rows)
    ensures var after := Consolidated(rows, Conflicted(rows, namespace));
            WellKeyed(after) && Consolidated(after, Conflicted(after, namespace)) == after
            && forall t :: InScope(namespace, t) ==> !Repeats(after, t)
  {
    var ts := Conflicted(rows, namespace);
    var after := Consolidated(rows, ts);
    KeysArePreserved(rows, ts);
    forall t | InScope(namespace, t) ensures (t in ts || !Repeats(rows, t)) && !Repeats(after, t) {
      NothingRepeats(rows, ts, t);
      RepeatsByRows(rows, t);
      if Repeats(rows, t) {
        ActiveRowsAreActive(rows, t);
        assert ActiveRows(rows, t)[0] in ActiveRows(rows, t);
      }
    }
    SecondRunClosesNothing(rows, ts, Conflicted(after, namespace));
  }

  /** The fact behind a row, as its memories row is identified: the namespace is left out. */
  function QuadOf(r: Row): Quad { Quad(r.triple.entity, r.triple.attribute, r.value, r.anchor) }

  /** Some superseded row shares its namesake, and with it the memories row, with r. */
  ghost predicate NamesakeSuperseded(rows: seq<Row>, ts: set<Triple>, r: Row) {
    exists v :: Superseded(rows, ts, v) && Namesake(QuadOf(v)) == Namesake(QuadOf(r))
  }

  /** Any row keeps its backing memories row exactly when no superseded row has the same namesake. */
  lemma {:induction false} MemoryFollowsTheNamesake(sha: Hash, rows: seq<Row>, ts: set<Triple>, open: set<string>,
                                                    r: Row)
    requires Injective(sha) && MemoryId(sha, r) in open
    ensures MemoryId(sha, r) in open - MemoryIds(sha, SupersededRows(rows, ts)) <==> !NamesakeSuperseded(rows, ts, r)
  {
    forall v ensures MemoryId(sha, v) == MemoryId(sha, r) <==> Namesake(QuadOf(v)) == Namesake(QuadOf(r)) {
      SameIdMeansSameNamesake(sha, QuadOf(v), QuadOf(r));
    }
    assert forall v :: Superseded(rows, ts, v) <==> v in SupersededRows(rows, ts);
  }

  predicate IdentityFree(r: Row) { DelimiterFree(r.triple.entity, r.triple.attribute, r.anchor) }

  /**
   Among rows without delimiters in entity, attribute and anchor: a row keeps its backing
   memories row exactly when no superseded row has the same entity, attribute, value and
   anchor, in whatever namespace.
   */
  lemma {:induction false} KeptRowKeepsItsMemory(sha: Hash, rows: seq<Row>, ts: set<Triple>, open: set<string>, r: Row)
    requires Injective(sha) && forall x <- rows :: IdentityFree(x)
    requires r in rows && MemoryId(sha, r) in open
    ensures MemoryId(sha, r) in open - MemoryIds(sha, SupersededRows(rows, ts)) <==>
            !exists v :: Superseded(rows, ts, v) && v.triple.entity == r.triple.entity
                         && v.triple.attribute == r.triple.attribute && v.value == r.value && v.anchor == r.anchor
  {
    MemoryFollowsTheNamesake(sha, rows, ts, open, r);
    forall v | v in rows ensures Namesake(QuadOf(v)) == QuadOf(v) {
      NamesakeSharesTheText(QuadOf(v));
    }
    if v :| Superseded(rows, ts, v) && v.triple.entity == r.triple.entity
            && v.triple.attribute == r.triple.attribute && v.value == r.value && v.anchor == r.anchor {
      assert QuadOf(v) == QuadOf(r);
    }
  }

  /**
   A delimiter in the entity or the attribute: no superseded row has the kept row's
   attribute or value, and still the run closes the memories row behind it.
   */
  lemma {:induction false} DelimiterClosesAnothersMemory(sha: Hash)
    ensures var t := Triple("ws", "Ann", "likes|owns");
            var older := Row("a", t, "tea", 100.0, None, "c", false);
            var newer := Row("b", t, "tea", 200.0, None, "d", false);
            var kept := Row("k", Triple("ws", "Ann", "likes"), "owns|tea", 50.0, None, "c", false);
            var rows := [older, newer, kept];
            WellKeyed(rows) && Consolidated(rows, {t})[2] == kept
            && (forall v :: Superseded(rows, {t}, v) ==>
                  v.triple.attribute != kept.triple.attribute && v.value != kept.value)
            && MemoryId(sha, kept) in MemoryIds(sha, SupersededRows(rows, {t}))
  {
    var t := Triple("ws", "Ann", "likes|owns");
    var older := Row("a", t, "tea", 100.0, None, "c", false);
    var newer := Row("b", t, "tea", 200.0, None, "d", false);
    var kept := Row("k", Triple("ws", "Ann", "likes"), "owns|tea", 50.0, None, "c", false);
    var rows := [older, newer, kept];
    assert |t.attribute| != |kept.triple.attribute| && |"tea"| != |kept.value|;
    OnlyTheOlderGoes(older, newer, kept);
    assert SupersededRows(rows, {t}) == {older};
    SharedMemory(sha, older, kept);
  }

  /** Two active rows of one triple with one value, and a row of another triple: only the older one goes. */
  lemma {:induction false} OnlyTheOlderGoes(older: Row, newer: Row, kept: Row)
    requires older.triple == newer.triple != kept.triple && older.validFrom < newer.validFrom
    requires older.validTo == newer.validTo == None && older.value == newer.value
    requires !older.accumulate && !newer.accumulate
    requires Distinct([older.stateId, newer.stateId, kept.stateId])
    ensures var rows := [older, newer, kept];
            WellKeyed(rows) && (forall v :: Superseded(rows, {older.triple}, v) <==> v == older)
            && Consolidated(rows, {older.triple})[2] == kept
  {
    var rows, ids := [older, newer, kept], [older.stateId, newer.stateId, kept.stateId];
    assert rows[0] == older && rows[1] == newer && rows[2] == kept;
    assert ids[0] != ids[1] && ids[0] != ids[2] && ids[1] != ids[2];
    assert older in rows && newer in rows && kept in rows && older != newer;
    forall v | v in rows ensures v == older || v == newer || v == kept {}
    assert Repeats(rows, older.triple);
    assert IsNewest(rows, newer) && !IsNewest(rows, older);
  }

  lemma {:induction false} SharedMemory(sha: Hash, a: Row, b: Row)
    requires QuadOf(a) == Quad("Ann", "likes|owns", "tea", "c") && QuadOf(b) == Quad("Ann", "likes", "owns|tea", "c")
    ensures MemoryId(sha, a) == MemoryId(sha, b)
  {
    Regrouped("likes", "owns", "tea", "|c");
    assert "likes" + ("|" + "owns") == "likes|owns" && "owns" + ("|" + "tea") == "owns|tea" && "|" + "c" == "|c";
  }

  /** Two equal facts from one anchor: the run keeps the newer row active but closes the memories row behind it. */
  lemma {:induction false} KeeperCanLoseItsMemory(sha: Hash)
    ensures var t := Triple("ws", "Andrew", "job");
            var older := Row("a", t, "banker", 100.0, None, "chunk-1", false);
            var newer := Row("b", t, "banker", 200.0, None, "chunk-1", false);
            var rows := [older, newer];
            WellKeyed(rows) && IsActive(Consolidated(rows, {t})[1], t)
            && MemoryId(sha, newer) in MemoryIds(sha, SupersededRows(rows, {t}))
  {
    var t := Triple("ws", "Andrew", "job");
    var older := Row("a", t, "banker", 100.0, None, "chunk-1", false);
    var newer := Row("b", t, "banker", 200.0, None, "chunk-1", false);
    var rows := [older, newer];
    assert rows[0] == older && rows[1] == newer;
    assert older in rows && newer in rows;
    assert Superseded(rows, {t}, older);
    assert older in SupersededRows(rows, {t});
    assert MemoryId(sha, older) == MemoryId(sha, newer);
  }
}
