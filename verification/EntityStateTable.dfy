/**
 The entity-state view as an object (backends/sqlite_entity_state.py): append-only
 upsert, lookups, and supersession with the closures it propagates to the backing
 memories rows.
 */
module EntityStateTable {
  import opened Basics
  import opened EntityState
  import opened FactIdentity

  /** The record id of the memories row that backs an entity-state row; it leaves out the namespace. */
  function MemoryId(sha: Hash, r: Row): string {
    FactRecordId(sha, r.triple.entity, r.triple.attribute, r.value, r.anchor)
  }

  predicate InScope(namespace: Option<string>, t: Triple) {
    namespace == None || namespace.value == t.namespace
  }

  /** supersede closes every active row of the triple but the kept one. */
  predicate Victim(r: Row, t: Triple, keep: string) { IsActive(r, t) && r.stateId != keep }

  function CloseVictims(rows: seq<Row>, t: Triple, keep: string, validTo: real): seq<Row> {
    seq(|rows|, i requires 0 <= i < |rows| =>
      if Victim(rows[i], t, keep) then rows[i].(validTo := Some(validTo)) else rows[i])
  }

  function MemoryIds(sha: Hash, rs: set<Row>): set<string> { set r | r in rs :: MemoryId(sha, r) }

  lemma {:induction false} MemoryIdsJoin(sha: Hash, a: set<Row>, b: set<Row>)
    ensures MemoryIds(sha, a + b) == MemoryIds(sha, a) + MemoryIds(sha, b)
  {}

  function Victims(rows: seq<Row>, t: Triple, keep: string): set<Row> {
    set r | r in rows && Victim(r, t, keep)
  }

  // ---------------------------------------------------------------------
  // Time stamps that keep valid_from unique
  // ---------------------------------------------------------------------

  const NUDGE: real := 0.000001
  const TOLERANCE: real := 0.000000001

  predicate Near(a: real, b: real) { a - b < TOLERANCE && b - a < TOLERANCE }

  predicate Free(taken: seq<real>, ts: real) { forall i :: 0 <= i < |taken| ==> !Near(ts, taken[i]) }

  /** How many taken time stamps a candidate can still run into. */
  function Ahead(taken: seq<real>, ts: real): nat {
    if taken == [] then 0
    else Ahead(taken[..|taken|-1], ts) + if taken[|taken|-1] > ts - TOLERANCE then 1 else 0
  }

  /** A nudge leaves a time stamp it ran into behind. */
  lemma {:induction false} NudgePasses(taken: seq<real>, ts: real)
    ensures Ahead(taken, ts + NUDGE) <= Ahead(taken, ts)
    ensures !Free(taken, ts) ==> Ahead(taken, ts + NUDGE) < Ahead(taken, ts)
  {
    if taken != [] {
      var front := taken[..|taken|-1];
      NudgePasses(front, ts);
      if !Free(taken, ts) && Free(front, ts) {
        assert Near(ts, taken[|taken|-1]);
      }
    }
  }

  /** The first free time stamp from ts on, in steps of one nudge. */
  function Reconciled(taken: seq<real>, ts: real): (r: real)
    ensures r >= ts && Free(taken, r)
    decreases Ahead(taken, ts)
  {
    if Free(taken, ts) then ts
    else
      NudgePasses(taken, ts);
      Reconciled(taken, ts + NUDGE)
  }

  /** Nudging goes no further than the number of time stamps ahead. */
  lemma {:induction false} ReconciledIsClose(taken: seq<real>, ts: real)
    ensures Reconciled(taken, ts) <= ts + Ahead(taken, ts) as real * NUDGE
    decreases Ahead(taken, ts)
  {
    if !Free(taken, ts) {
      NudgePasses(taken, ts);
      ReconciledIsClose(taken, ts + NUDGE);
    }
  }

  function Stamps(rows: seq<Row>, t: Triple): seq<real> {
    if rows == [] then []
    else Stamps(rows[..|rows|-1], t) + if rows[|rows|-1].triple == t then [rows[|rows|-1].validFrom] else []
  }

  lemma {:induction false} StampsAreTaken(rows: seq<Row>, t: Triple)
    ensures forall r <- rows :: r.triple == t ==> r.validFrom in Stamps(rows, t)
  {
    if rows != [] {
      StampsAreTaken(rows[..|rows|-1], t);
      assert rows == rows[..|rows|-1] + [rows[|rows|-1]];
    }
  }

  /** The rows after an append-only upsert: one new open row, nothing closed. */
  function Upserted(rows: seq<Row>, stateId: string, t: Triple, value: string, ts: real, anchor: string,
                    accumulate: bool): seq<Row> {
    rows + [Row(stateId, t, value, Reconciled(Stamps(rows, t), ts), None, anchor, accumulate)]
  }

  lemma {:induction false} UpsertKeepsKeys(rows: seq<Row>, stateId: string, t: Triple, value: string, ts: real,
                                           anchor: string, accumulate: bool)
    requires WellKeyed(rows) && forall r <- rows :: r.stateId != stateId
    ensures WellKeyed(Upserted(rows, stateId, t, value, ts, anchor, accumulate))
  {
    var stamps := Stamps(rows, t);
    var stamp := Reconciled(stamps, ts);
    StampsAreTaken(rows, t);
    forall r | r in rows && r.triple == t ensures r.validFrom != stamp {
      var i :| 0 <= i < |stamps| && stamps[i] == r.validFrom;
      assert !Near(stamp, stamps[i]);
    }
  }

  // ---------------------------------------------------------------------
  // The order of triples
  // ---------------------------------------------------------------------

  /** Text is compared character by character. */
  predicate Below(a: string, b: string) {
    b != "" && (a == "" || a[0] < b[0] || (a[0] == b[0] && Below(a[1..], b[1..])))
  }

  predicate Precedes(t: Triple, u: Triple) {
    Below(t.namespace, u.namespace)
    || (t.namespace == u.namespace && (Below(t.entity, u.entity)
                                       || (t.entity == u.entity && Below(t.attribute, u.attribute))))
  }

  predicate Ascending(ts: seq<Triple>) { forall i, j :: 0 <= i < j < |ts| ==> Precedes(ts[i], ts[j]) }

  /** Into its place, unless it is there already. */
  function InsertTriple(t: Triple, ts: seq<Triple>): seq<Triple> {
    if ts == [] || Precedes(t, ts[0]) then [t] + ts
    else if t == ts[0] then ts
    else [ts[0]] + InsertTriple(t, ts[1..])
  }

  lemma {:induction false} BelowIsTotal(a: string, b: string)
    ensures a == b || Below(a, b) || Below(b, a)
    ensures !(Below(a, b) && Below(b, a)) && !Below(a, a)
  {
    if a != "" && b != "" {
      BelowIsTotal(a[1..], b[1..]);
      assert a == [a[0]] + a[1..] && b == [b[0]] + b[1..];
    }
    if a != "" {
      BelowIsIrreflexive(a);
    }
  }

  lemma {:induction false} BelowIsIrreflexive(a: string)
    ensures !Below(a, a)
  {
    if a != "" {
      BelowIsIrreflexive(a[1..]);
    }
  }

  lemma {:induction false} BelowIsTransitive(a: string, b: string, c: string)
    requires Below(a, b) && Below(b, c)
    ensures Below(a, c)
  {
    if a != "" && a[0] == b[0] == c[0] {
      BelowIsTransitive(a[1..], b[1..], c[1..]);
    }
  }

  lemma {:induction false} PrecedesIsAnOrder(t: Triple, u: Triple)
    ensures (t == u || Precedes(t, u) || Precedes(u, t)) && !Precedes(t, t)
  {
    BelowIsTotal(t.namespace, u.namespace);
    BelowIsTotal(t.entity, u.entity);
    BelowIsTotal(t.attribute, u.attribute);
  }

  lemma {:induction false} PrecedesIsTransitive(t: Triple, u: Triple, v: Triple)
    requires Precedes(t, u) && Precedes(u, v)
    ensures Precedes(t, v)
  {
    if Below(t.namespace, u.namespace) && Below(u.namespace, v.namespace) {
      BelowIsTransitive(t.namespace, u.namespace, v.namespace);
    } else if t.namespace == v.namespace && Below(t.entity, u.entity) && Below(u.entity, v.entity) {
      BelowIsTransitive(t.entity, u.entity, v.entity);
    } else if t.namespace == v.namespace && t.entity == v.entity
              && Below(t.attribute, u.attribute) && Below(u.attribute, v.attribute) {
      BelowIsTransitive(t.attribute, u.attribute, v.attribute);
    }
  }

  lemma {:induction false} InsertTripleSorts(t: Triple, ts: seq<Triple>)
    requires Ascending(ts)
    ensures Ascending(InsertTriple(t, ts))
    ensures forall u :: u in InsertTriple(t, ts) <==> u == t || u in ts
  {
    if ts != [] {
      PrecedesIsAnOrder(t, ts[0]);
      assert ts == [ts[0]] + ts[1..];
      if Precedes(t, ts[0]) {
        forall j | 0 < j < |ts| ensures Precedes(t, ts[j]) {
          PrecedesIsTransitive(t, ts[0], ts[j]);
        }
      } else if t != ts[0] {
        InsertTripleSorts(t, ts[1..]);
        var tail := InsertTriple(t, ts[1..]);
        forall j | 0 <= j < |tail| ensures Precedes(ts[0], tail[j]) {
          assert tail[j] in tail;
        }
      }
    }
  }

  lemma {:induction false} AscendingIsDistinct(ts: seq<Triple>)
    requires Ascending(ts)
    ensures Distinct(ts)
  {
    forall i, j | 0 <= i < j < |ts| ensures ts[i] != ts[j] {
      PrecedesIsAnOrder(ts[i], ts[j]);
    }
  }

  class EntityStateView {
    const sha: Hash
    var rows: seq<Row>
    /** Record ids of the memories rows whose valid_to is null. */
    var openMemories: set<string>

    constructor (sha: Hash, rows: seq<Row>, openMemories: set<string>)
      ensures this.sha == sha && this.rows == rows && this.openMemories == openMemories
    {
      this.sha, this.rows, this.openMemories := sha, rows, openMemories;
    }

    method GetActive(t: Triple) returns (active: seq<Row>)
      ensures active == ActiveRows(rows, t)
    {
      active := ActiveRows(rows, t);
    }

    method GetReconciliationTs(taken: seq<real>, ts: real) returns (candidate: real)
      ensures candidate == Reconciled(taken, ts)
    {
      candidate := ts;
      while !Free(taken, candidate)
        invariant Reconciled(taken, candidate) == Reconciled(taken, ts)
        decreases Ahead(taken, candidate)
      {
        NudgePasses(taken, candidate);
        candidate := candidate + NUDGE;
      }
    }

    /** The state id is freshly drawn; now is the clock, read when the fact carries no time of its own. */
    method Upsert(stateId: string, t: Triple, value: string, validFrom: Option<real>, now: real, anchor: string,
                  accumulate: bool)
      returns (record: Row)
      requires WellKeyed(rows) && forall r <- rows :: r.stateId != stateId
      modifies this`rows
      ensures WellKeyed(rows)
      ensures rows == Upserted(old(rows), stateId, t, value, if validFrom == None then now else validFrom.value, anchor,
                               accumulate)
      ensures record == rows[|rows|-1]
    {
      var ts := if validFrom == None then now else validFrom.value;
      UpsertKeepsKeys(rows, stateId, t, value, ts, anchor, accumulate);
      ts := GetReconciliationTs(Stamps(rows, t), ts);
      record := Row(stateId, t, value, ts, None, anchor, accumulate);
      rows := rows + [record];
    }

    /** The triples in scope with two or more active rows, each once, by namespace, entity and attribute. */
    method ListConflictedTriples(namespace: Option<string>) returns (ts: seq<Triple>)
      ensures Ascending(ts) && Distinct(ts)
      ensures forall t :: t in ts <==> InScope(namespace, t) && |ActiveRows(rows, t)| >= 2
    {
      ts := [];
      for i := 0 to |rows|
        invariant Ascending(ts)
        invariant forall t <- ts :: InScope(namespace, t) && |ActiveRows(rows, t)| >= 2
        invariant forall j :: 0 <= j < i && InScope(namespace, rows[j].triple)
                              && |ActiveRows(rows, rows[j].triple)| >= 2 ==>
                    rows[j].triple in ts
      {
        var t := rows[i].triple;
        if InScope(namespace, t) && |ActiveRows(rows, t)| >= 2 {
          InsertTripleSorts(t, ts);
          ts := InsertTriple(t, ts);
        }
      }
      forall t | InScope(namespace, t) && |ActiveRows(rows, t)| >= 2 ensures t in ts {
        ActiveRowsAreActive(rows, t);
        assert ActiveRows(rows, t)[0] in ActiveRows(rows, t);
      }
      AscendingIsDistinct(ts);
    }

    /** Close one row and the memories row behind it; tells whether the latter was still open. */
    method CloseRow(i: nat, validTo: real) returns (wasOpen: bool)
      requires i < |rows|
      modifies this`rows, this`openMemories
      ensures rows == old(rows)[i := old(rows)[i].(validTo := Some(validTo))]
      ensures openMemories == old(openMemories) - {MemoryId(sha, old(rows)[i])}
      ensures |old(openMemories)| == |openMemories| + if wasOpen then 1 else 0
    {
      var id := MemoryId(sha, rows[i]);
      rows := rows[i := rows[i].(validTo := Some(validTo))];
      wasOpen := id in openMemories;
      openMemories := openMemories - {id};
    }

    /** The loop over the victims, row by row. */
    method CloseEach(t: Triple, keep: string, validTo: real) returns (closed: nat, propagated: nat)
      modifies this`rows, this`openMemories
      ensures rows == CloseVictims(old(rows), t, keep, validTo)
      ensures openMemories == StillOpen(sha, old(openMemories), old(rows), t, keep)
      ensures closed == VictimCount(old(rows), t, keep)
      ensures propagated == |old(openMemories)| - |openMemories|
    {
      closed, propagated := 0, 0;
      ghost var before, openBefore := rows, openMemories;
      PartlyClosedEnds(before, t, keep, validTo);
      for i := 0 to |rows|
        invariant |rows| == |before| && rows == PartlyClosed(before, i, t, keep, validTo)
        invariant openMemories == StillOpen(sha, openBefore, before[..i], t, keep)
        invariant closed == VictimCount(before[..i], t, keep)
        invariant propagated == |openBefore| - |openMemories|
      {
        PartlyClosedStep(before, i, t, keep, validTo);
        NextVictim(sha, openBefore, before, i, t, keep);
        if Victim(rows[i], t, keep) {
          var wasOpen := CloseRow(i, validTo);
          closed := closed + 1;
          propagated := propagated + if wasOpen then 1 else 0;
        }
      }
    }

    method Supersede(t: Triple, keep: string, validTo: real) returns (closed: nat, propagated: nat)
      modifies this`rows, this`openMemories
      ensures rows == CloseVictims(old(rows), t, keep, validTo)
      ensures openMemories == old(openMemories) - MemoryIds(sha, Victims(old(rows), t, keep))
      ensures closed == ActiveCount(old(rows)) - ActiveCount(rows)
      ensures closed > 0 <==> exists r :: r in old(rows) && Victim(r, t, keep)
      ensures propagated == |old(openMemories)| - |openMemories|
    {
      VictimsAreCounted(rows, t, keep, validTo);
      VictimsAreClosed(sha, openMemories, rows, t, keep);
      closed, propagated := CloseEach(t, keep, validTo);
    }
  }

  /** Supersession half way: the first i rows are done. */
  function PartlyClosed(rows: seq<Row>, i: nat, t: Triple, keep: string, validTo: real): seq<Row>
    requires i <= |rows|
  {
    CloseVictims(rows[..i], t, keep, validTo) + rows[i..]
  }

  lemma {:induction false} PartlyClosedStep(rows: seq<Row>, i: nat, t: Triple, keep: string, validTo: real)
    requires i < |rows|
    ensures var now := PartlyClosed(rows, i, t, keep, validTo);
            |now| == |rows| && now[i] == rows[i] &&
            PartlyClosed(rows, i + 1, t, keep, validTo) ==
              if Victim(rows[i], t, keep) then now[i := rows[i].(validTo := Some(validTo))] else now
  {}

  lemma {:induction false} PartlyClosedEnds(rows: seq<Row>, t: Triple, keep: string, validTo: real)
    ensures PartlyClosed(rows, 0, t, keep, validTo) == rows && rows[..|rows|] == rows
    ensures PartlyClosed(rows, |rows|, t, keep, validTo) == CloseVictims(rows, t, keep, validTo)
  {
    assert rows[..|rows|] == rows;
  }

  lemma {:induction false} NextVictim(sha: Hash, open: set<string>, rows: seq<Row>, i: nat, t: Triple, keep: string)
    requires i < |rows|
    ensures VictimCount(rows[..i+1], t, keep)
            == VictimCount(rows[..i], t, keep) + if Victim(rows[i], t, keep) then 1 else 0
    ensures var left := StillOpen(sha, open, rows[..i], t, keep);
            StillOpen(sha, open, rows[..i+1], t, keep)
            == if Victim(rows[i], t, keep) then left - {MemoryId(sha, rows[i])} else left
  {
    assert rows[..i+1][..i] == rows[..i];
  }

  function VictimCount(rows: seq<Row>, t: Triple, keep: string): nat {
    if rows == [] then 0
    else VictimCount(rows[..|rows|-1], t, keep) + if Victim(rows[|rows|-1], t, keep) then 1 else 0
  }

  function StillOpen(sha: Hash, open: set<string>, rows: seq<Row>, t: Triple, keep: string): set<string> {
    if rows == [] then open
    else
      var rest := StillOpen(sha, open, rows[..|rows|-1], t, keep);
      var r := rows[|rows|-1];
      if Victim(r, t, keep) then rest - {MemoryId(sha, r)} else rest
  }

  lemma {:induction false} VictimsAreClosed(sha: Hash, open: set<string>, rows: seq<Row>, t: Triple, keep: string)
    ensures StillOpen(sha, open, rows, t, keep) == open - MemoryIds(sha, Victims(rows, t, keep))
  {
    if rows != [] {
      var front, r := rows[..|rows|-1], rows[|rows|-1];
      var more := if Victim(r, t, keep) then {r} else {};
      VictimsAreClosed(sha, open, front, t, keep);
      assert rows == front + [r];
      assert Victims(rows, t, keep) == Victims(front, t, keep) + more;
      MemoryIdsJoin(sha, Victims(front, t, keep), more);
      assert MemoryIds(sha, more) == if Victim(r, t, keep) then {MemoryId(sha, r)} else {};
    }
  }

  lemma {:induction false} VictimsAreCounted(rows: seq<Row>, t: Triple, keep: string, validTo: real)
    ensures VictimCount(rows, t, keep) == ActiveCount(rows) - ActiveCount(CloseVictims(rows, t, keep, validTo))
    ensures VictimCount(rows, t, keep) > 0 <==> exists r :: r in rows && Victim(r, t, keep)
  {
    if rows != [] {
      var front, r := rows[..|rows|-1], rows[|rows|-1];
      var after := CloseVictims(rows, t, keep, validTo);
      VictimsAreCounted(front, t, keep, validTo);
      assert after[..|after|-1] == CloseVictims(front, t, keep, validTo);
      assert rows == front + [r];
    }
  }
}
