/**
 The bi-temporal entity-state view (backends/sqlite_entity_state.py) and the
 consolidator that closes exact duplicates (dreamer_consolidate.py).
 */
module EntityState {
  import opened Basics

  datatype Triple = Triple(namespace: string, entity: string, attribute: string)

  /** A row is valid over [validFrom, validTo), for ever when validTo is None. */
  datatype Row = Row(
    stateId: string, triple: Triple, value: string, validFrom: real, validTo: Option<real>, anchor: string,
    accumulate: bool)

  predicate IsActive(r: Row, t: Triple) { r.triple == t && r.validTo == None }

  predicate ValidAt(r: Row, instant: real) {
    r.validFrom <= instant && (r.validTo == None || instant < r.validTo.value)
  }

  /** state_id is the primary key and valid_from is unique per triple. */
  ghost predicate WellKeyed(rows: seq<Row>) {
    (forall i, j :: 0 <= i < j < |rows| ==> rows[i].stateId != rows[j].stateId)
    && forall i, j :: 0 <= i < j < |rows| && rows[i].triple == rows[j].triple ==> rows[i].validFrom != rows[j].validFrom
  }

  /** What an as-of query sees. */
  ghost function ValuesAt(rows: seq<Row>, t: Triple, instant: real): set<string> {
    set r | r in rows && r.triple == t && ValidAt(r, instant) :: r.value
  }

  function InsertNewest(r: Row, rows: seq<Row>): seq<Row> {
    if rows == [] || r.validFrom >= rows[0].validFrom then [r] + rows
    else [rows[0]] + InsertNewest(r, rows[1..])
  }

  /** The active rows of a triple, newest first. */
  function ActiveRows(rows: seq<Row>, t: Triple): seq<Row> {
    if rows == [] then []
    else
      var earlier := ActiveRows(rows[..|rows|-1], t);
      var r := rows[|rows|-1];
      if IsActive(r, t) then InsertNewest(r, earlier) else earlier
  }

  predicate NewestFirst(rows: seq<Row>) {
    forall i, j :: 0 <= i < j < |rows| ==> rows[i].validFrom >= rows[j].validFrom
  }

  lemma {:induction false} InsertNewestInserts(r: Row, rows: seq<Row>)
    ensures multiset(InsertNewest(r, rows)) == multiset(rows) + multiset{r}
    ensures forall x :: x in InsertNewest(r, rows) <==> x == r || x in rows
  {
    if rows != [] && r.validFrom < rows[0].validFrom {
      InsertNewestInserts(r, rows[1..]);
      assert rows == [rows[0]] + rows[1..];
    }
  }

  lemma {:induction false} InsertNewestKeepsOrder(r: Row, rows: seq<Row>)
    requires NewestFirst(rows)
    ensures NewestFirst(InsertNewest(r, rows))
  {
    if rows != [] && r.validFrom < rows[0].validFrom {
      InsertNewestKeepsOrder(r, rows[1..]);
      InsertNewestInserts(r, rows[1..]);
      var inserted := InsertNewest(r, rows[1..]);
      forall j | 0 <= j < |inserted| ensures rows[0].validFrom >= inserted[j].validFrom {
        assert inserted[j] in inserted;
      }
    }
  }

  /** The active rows are the open rows of the triple, each as often as it occurs, newest first. */
  lemma {:induction false} ActiveRowsAreActive(rows: seq<Row>, t: Triple)
    ensures NewestFirst(ActiveRows(rows, t))
    ensures forall x :: x in ActiveRows(rows, t) <==> x in rows && IsActive(x, t)
    ensures forall x :: multiset(ActiveRows(rows, t))[x] <= multiset(rows)[x]
  {
    if rows != [] {
      var front, r := rows[..|rows|-1], rows[|rows|-1];
      ActiveRowsAreActive(front, t);
      assert rows == front + [r];
      if IsActive(r, t) {
        InsertNewestInserts(r, ActiveRows(front, t));
        InsertNewestKeepsOrder(r, ActiveRows(front, t));
      }
    }
  }

  /** Two active rows are two different rows. */
  lemma {:induction false} ActiveRowsAreDistinct(rows: seq<Row>, t: Triple)
    requires WellKeyed(rows)
    ensures |ActiveRows(rows, t)| >= 2 <==>
            exists r, s :: r in rows && s in rows && r != s && IsActive(r, t) && IsActive(s, t)
  {
    ActiveRowsAreActive(rows, t);
    var active := ActiveRows(rows, t);
    if |active| >= 2 {
      assert active[0] in active && active[1] in active;
      assert active == [active[0], active[1]] + active[2..];
      if active[0] == active[1] {
        assert multiset(active)[active[0]] >= 2;
        assert Distinct(rows);
        OccursOnce(rows, active[0]);
      }
    }
  }

  /** How many rows are active, over all triples. */
  function ActiveCount(rows: seq<Row>): nat {
    if rows == [] then 0 else ActiveCount(rows[..|rows|-1]) + if rows[|rows|-1].validTo == None then 1 else 0
  }

  // ---------------------------------------------------------------------
  // Consolidation as one simultaneous change
  // ---------------------------------------------------------------------

  /** At least two active rows, none tagged as an open set, all with one and the same value. */
  ghost predicate Repeats(rows: seq<Row>, t: Triple) {
    (exists r, s :: r in rows && s in rows && r != s && IsActive(r, t) && IsActive(s, t))
    && (forall r <- rows :: IsActive(r, t) ==> !r.accumulate)
    && forall r, s :: r in rows && s in rows && IsActive(r, t) && IsActive(s, t) ==> r.value == s.value
  }

  predicate IsNewest(rows: seq<Row>, k: Row) {
    k in rows && k.validTo == None && forall r <- rows :: IsActive(r, k.triple) ==> r.validFrom <= k.validFrom
  }

  ghost predicate HasNewest(rows: seq<Row>, t: Triple) { exists k: Row :: k.triple == t && IsNewest(rows, k) }

  ghost function Newest(rows: seq<Row>, t: Triple): (k: Row)
    requires HasNewest(rows, t)
    ensures k.triple == t && IsNewest(rows, k)
  {
    var k: Row :| k.triple == t && IsNewest(rows, k);
    k
  }

  lemma {:induction false} NewestExists(rows: seq<Row>, r: Row)
    requires r in rows && r.validTo == None
    ensures HasNewest(rows, r.triple)
  {
    ActiveRowsAreActive(rows, r.triple);
    var active := ActiveRows(rows, r.triple);
    assert active[0] in active;
    assert IsNewest(rows, active[0]);
  }

  lemma {:induction false} NewestIsUnique(rows: seq<Row>, a: Row, b: Row)
    requires WellKeyed(rows) && a.triple == b.triple && IsNewest(rows, a) && IsNewest(rows, b)
    ensures a == b
  {}

  /** r must be closed: an active duplicate, other than the newest, of a triple to consolidate. */
  ghost predicate Superseded(rows: seq<Row>, ts: set<Triple>, r: Row) {
    r in rows && r.triple in ts && r.validTo == None && Repeats(rows, r.triple) && !IsNewest(rows, r)
  }

  ghost function ConsolidatedRow(rows: seq<Row>, ts: set<Triple>, r: Row): Row {
    if Superseded(rows, ts, r) then
      NewestExists(rows, r);
      r.(validTo := Some(Newest(rows, r.triple).validFrom))
    else r
  }

  /** The rows after consolidating the triples ts: every superseded row ends where the newest begins. */
  ghost function Consolidated(rows: seq<Row>, ts: set<Triple>): seq<Row> {
    seq(|rows|, i requires 0 <= i < |rows| => ConsolidatedRow(rows, ts, rows[i]))
  }

  lemma {:induction false} MembersMove(rows: seq<Row>, ts: set<Triple>)
    ensures forall r <- rows :: ConsolidatedRow(rows, ts, r) in Consolidated(rows, ts)
    ensures forall c <- Consolidated(rows, ts) :: exists r :: r in rows && c == ConsolidatedRow(rows, ts, r)
  {
    var after := Consolidated(rows, ts);
    forall r | r in rows ensures ConsolidatedRow(rows, ts, r) in after {
      var i :| 0 <= i < |rows| && rows[i] == r;
      assert after[i] == ConsolidatedRow(rows, ts, r);
    }
    forall c | c in after ensures exists r :: r in rows && c == ConsolidatedRow(rows, ts, r) {
      var i :| 0 <= i < |after| && after[i] == c;
      assert rows[i] in rows;
    }
  }

  /** History is untouched: every as-of query sees the same values before and after. */
  lemma {:induction false} HistoryIsPreserved(rows: seq<Row>, ts: set<Triple>, t: Triple, instant: real)
    ensures ValuesAt(Consolidated(rows, ts), t, instant) == ValuesAt(rows, t, instant)
  {
    var after := Consolidated(rows, ts);
    MembersMove(rows, ts);
    forall v | v in ValuesAt(rows, t, instant) ensures v in ValuesAt(after, t, instant) {
      var r :| r in rows && r.triple == t && ValidAt(r, instant) && r.value == v;
      var c := ConsolidatedRow(rows, ts, r);
      assert c in after;
      if Superseded(rows, ts, r) {
        NewestExists(rows, r);
        var k := Newest(rows, t);
        assert ConsolidatedRow(rows, ts, k) == k && k in after;
        assert ValidAt(c, instant) || ValidAt(k, instant);
      }
    }
    forall v | v in ValuesAt(after, t, instant) ensures v in ValuesAt(rows, t, instant) {
      var c :| c in after && c.triple == t && ValidAt(c, instant) && c.value == v;
      var r :| r in rows && c == ConsolidatedRow(rows, ts, r);
      assert ValidAt(r, instant);
    }
  }

  /** No triple loses its last active row, and none gains one. */
  lemma {:induction false} LastActiveRowSurvives(rows: seq<Row>, ts: set<Triple>, t: Triple)
    ensures (exists r :: r in rows && IsActive(r, t)) <==> (exists r :: r in Consolidated(rows, ts) && IsActive(r, t))
  {
    MembersMove(rows, ts);
    if r :| r in rows && IsActive(r, t) {
      NewestExists(rows, r);
      var k := Newest(rows, t);
      assert ConsolidatedRow(rows, ts, k) == k;
    }
    if c :| c in Consolidated(rows, ts) && IsActive(c, t) {
      var r :| r in rows && c == ConsolidatedRow(rows, ts, r);
    }
  }

  lemma {:induction false} KeysArePreserved(rows: seq<Row>, ts: set<Triple>)
    requires WellKeyed(rows)
    ensures WellKeyed(Consolidated(rows, ts))
  {}

  /** What was consolidated repeats no more: only its newest row is still active, or its values differ. */
  lemma {:induction false} NothingRepeats(rows: seq<Row>, ts: set<Triple>, t: Triple)
    requires WellKeyed(rows)
    ensures t in ts ==> !Repeats(Consolidated(rows, ts), t)
    ensures t !in ts ==> (Repeats(Consolidated(rows, ts), t) <==> Repeats(rows, t))
  {
    var after := Consolidated(rows, ts);
    MembersMove(rows, ts);
    if t in ts && Repeats(rows, t) {
      forall r, s | r in after && s in after && IsActive(r, t) && IsActive(s, t) ensures r == s {
        NewestIsUnique(rows, r, s);
      }
    } else {
      forall r: Row | r.triple == t ensures r in rows <==> r in after {
        if r in rows {
          assert ConsolidatedRow(rows, ts, r) == r;
        }
      }
    }
  }

  /** A second run over any triples the first one covered changes nothing. */
  lemma {:induction false} SecondRunClosesNothing(rows: seq<Row>, ts: set<Triple>, again: set<Triple>)
    requires WellKeyed(rows) && forall t <- again :: t in ts || !Repeats(rows, t)
    ensures Consolidated(Consolidated(rows, ts), again) == Consolidated(rows, ts)
  {
    forall t | t in again ensures !Repeats(Consolidated(rows, ts), t) {
      NothingRepeats(rows, ts, t);
    }
  }
}
