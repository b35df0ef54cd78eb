/**
 The writer tools (resolver.py): one fact at a time is admitted, merged into an open
 set, or parked when it is vague.
 */
module MemoryWriter {
  import opened Basics
  import opened CommaText
  import opened EntityState
  import opened EntityStateTable

  datatype Certainty = Certain | Probable | Vague

  /** tagged: the qualifiers carry accumulate=true; accumulate: the fact is one item of an open set. */
  datatype Fact = Fact(
    subject: string, attribute: string, obj: string, certainty: Certainty, anchor: string,
    validFrom: Option<real>, tagged: bool, accumulate: bool)

  datatype Decision = Admitted(state: Row) | Duplicate(state: Row) | DeferredVague

  datatype Result = Ok(decision: Decision) | ConflictError | MissingActiveError

  function TripleOf(namespace: string, f: Fact): Triple { Triple(namespace, f.subject, f.attribute) }

  /** The rows after the fact has been appended as it stands. */
  function Appended(rows: seq<Row>, namespace: string, f: Fact, now: real, stateId: string): seq<Row> {
    Upserted(rows, stateId, TripleOf(namespace, f), f.obj, if f.validFrom == None then now else f.validFrom.value,
             f.anchor, f.tagged)
  }

  /** The fact that carries the merged list; it takes its time from the clock. */
  function Merged(f: Fact, current: Row): Fact {
    f.(obj := Join(ParseItems(current.value) + [Strip(f.obj)]), validFrom := None)
  }

  /** The fact brings an item that the newest active row lists already. */
  predicate Repeated(rows: seq<Row>, namespace: string, f: Fact) {
    var existing := ActiveRows(rows, TripleOf(namespace, f));
    f.certainty != Vague && f.accumulate && existing != [] && Strip(f.obj) in ParseItems(existing[0].value)
  }

  /** The rows after one ingest: vague and repeated facts write nothing, items are merged, the rest is appended. */
  function Ingested(rows: seq<Row>, namespace: string, f: Fact, now: real, stateId: string): seq<Row> {
    var existing := ActiveRows(rows, TripleOf(namespace, f));
    if f.certainty == Vague || Repeated(rows, namespace, f) then rows
    else if f.accumulate && existing != [] then Appended(rows, namespace, Merged(f, existing[0]), now, stateId)
    else Appended(rows, namespace, f, now, stateId)
  }

  /** The fact's own time, or the clock. */
  function TimeOf(f: Fact, now: real): real { if f.validFrom == None then now else f.validFrom.value }

  /** One open row of the fact, with this value and the first free time stamp from ts on, stands behind all old rows. */
  predicate Adds(before: seq<Row>, after: seq<Row>, namespace: string, f: Fact, value: string, ts: real,
                 stateId: string)
  {
    |after| == |before| + 1 && after[..|before|] == before
    && var r := after[|before|];
       r.stateId == stateId && r.triple.namespace == namespace && r.triple.entity == f.subject
       && r.triple.attribute == f.attribute && r.value == value && r.anchor == f.anchor && r.accumulate == f.tagged
       && r.validTo == None && r.validFrom == Reconciled(Stamps(before, r.triple), ts)
  }

  /** The fact joins the list of the newest active row at the clock's time, or stands alone at its own. */
  predicate Stores(before: seq<Row>, after: seq<Row>, namespace: string, f: Fact, now: real, stateId: string) {
    var existing := ActiveRows(before, Triple(namespace, f.subject, f.attribute));
    if f.accumulate && existing != [] then
      Adds(before, after, namespace, f, Join(ParseItems(existing[0].value) + [Strip(f.obj)]), now, stateId)
    else Adds(before, after, namespace, f, f.obj, TimeOf(f, now), stateId)
  }

  /** An ingest stores every certain fact that is no repeat, and leaves the rows alone for any other. */
  lemma {:induction false} EveryCertainFactIsStored(rows: seq<Row>, namespace: string, f: Fact, now: real,
                                                    stateId: string)
    ensures var after := Ingested(rows, namespace, f, now, stateId);
            if f.certainty == Vague || Repeated(rows, namespace, f) then after == rows
            else Stores(rows, after, namespace, f, now, stateId)
  {}

  class MemoryWriterTools {
    const view: EntityStateView
    var inbox: seq<Fact>
    const namespace: string

    constructor (view: EntityStateView, namespace: string)
      ensures this.view == view && this.namespace == namespace && inbox == []
    {
      this.view, this.namespace, inbox := view, namespace, [];
    }

    ghost predicate CanWrite(stateId: string)
      reads this, view
    {
      WellKeyed(view.rows) && forall r <- view.rows :: r.stateId != stateId
    }

    method DeferVague(f: Fact) returns (r: Result)
      modifies this`inbox
      ensures r == Ok(DeferredVague) && inbox == old(inbox) + [f]
    {
      inbox := inbox + [f];
      r := Ok(DeferredVague);
    }

    method Upsert(f: Fact, now: real, stateId: string) returns (r: Result)
      requires CanWrite(stateId)
      modifies view`rows
      ensures WellKeyed(view.rows) && view.rows == Appended(old(view.rows), namespace, f, now, stateId)
      ensures r == Ok(Admitted(view.rows[|view.rows|-1]))
    {
      var record := view.Upsert(stateId, TripleOf(namespace, f), f.obj, f.validFrom, now, f.anchor, f.tagged);
      r := Ok(Admitted(record));
    }

    method WriteUnit(f: Fact, now: real, stateId: string) returns (r: Result)
      requires CanWrite(stateId)
      modifies this`inbox, view`rows
      ensures WellKeyed(view.rows)
      ensures f.certainty == Vague ==>
                r == Ok(DeferredVague) && inbox == old(inbox) + [f] && view.rows == old(view.rows)
      ensures f.certainty != Vague && ActiveRows(old(view.rows), TripleOf(namespace, f)) != [] ==>
                r == ConflictError && inbox == old(inbox) && view.rows == old(view.rows)
      ensures f.certainty != Vague && ActiveRows(old(view.rows), TripleOf(namespace, f)) == [] ==>
                view.rows == Appended(old(view.rows), namespace, f, now, stateId) && inbox == old(inbox)
                && Adds(old(view.rows), view.rows, namespace, f, f.obj, TimeOf(f, now), stateId)
                && r == Ok(Admitted(view.rows[|old(view.rows)|]))
    {
      if f.certainty == Vague {
        r := DeferVague(f);
        return;
      }
      var existing := view.GetActive(TripleOf(namespace, f));
      if existing != [] {
        return ConflictError;
      }
      r := Upsert(f, now, stateId);
    }

    method UpdateUnit(f: Fact, now: real, stateId: string) returns (r: Result)
      requires CanWrite(stateId)
      modifies this`inbox, view`rows
      ensures WellKeyed(view.rows)
      ensures f.certainty == Vague ==>
                r == Ok(DeferredVague) && inbox == old(inbox) + [f] && view.rows == old(view.rows)
      ensures f.certainty != Vague && ActiveRows(old(view.rows), TripleOf(namespace, f)) == [] ==>
                r == MissingActiveError && inbox == old(inbox) && view.rows == old(view.rows)
      ensures f.certainty != Vague && ActiveRows(old(view.rows), TripleOf(namespace, f)) != [] ==>
                view.rows == Appended(old(view.rows), namespace, f, now, stateId) && inbox == old(inbox)
                && Adds(old(view.rows), view.rows, namespace, f, f.obj, TimeOf(f, now), stateId)
                && r == Ok(Admitted(view.rows[|old(view.rows)|]))
    {
      if f.certainty == Vague {
        r := DeferVague(f);
        return;
      }
      var existing := view.GetActive(TripleOf(namespace, f));
      if existing == [] {
        return MissingActiveError;
      }
      r := Upsert(f, now, stateId);
    }

    /** Never raises; vague facts leave the main store alone and everything else leaves the inbox alone. */
    method IngestFact(f: Fact, now: real, stateId: string) returns (r: Result)
      requires CanWrite(stateId)
      modifies this`inbox, view`rows
      ensures WellKeyed(view.rows) && view.rows == Ingested(old(view.rows), namespace, f, now, stateId)
      ensures f.certainty == Vague ==>
                r == Ok(DeferredVague) && inbox == old(inbox) + [f]
      ensures f.certainty != Vague ==> inbox == old(inbox)
      ensures Repeated(old(view.rows), namespace, f) ==>
                r == Ok(Duplicate(ActiveRows(old(view.rows), TripleOf(namespace, f))[0]))
      ensures f.certainty == Vague || Repeated(old(view.rows), namespace, f) ==> view.rows == old(view.rows)
      ensures f.certainty != Vague && !Repeated(old(view.rows), namespace, f) ==>
                Stores(old(view.rows), view.rows, namespace, f, now, stateId)
                && r == Ok(Admitted(view.rows[|old(view.rows)|]))
    {
      EveryCertainFactIsStored(view.rows, namespace, f, now, stateId);
      if f.certainty == Vague {
        r := DeferVague(f);
        return;
      }
      var existing := view.GetActive(TripleOf(namespace, f));
      if f.accumulate && existing != [] {
        var currentItems := ParseItems(existing[0].value);
        var newItem := Strip(f.obj);
        if newItem in currentItems {
          return Ok(Duplicate(existing[0]));
        }
        var mergedFact := f.(obj := Join(currentItems + [newItem]), validFrom := None);
        r := UpdateUnit(mergedFact, now, stateId);
        return;
      }
      if existing != [] {
        r := UpdateUnit(f, now, stateId);
        return;
      }
      r := WriteUnit(f, now, stateId);
    }
  }

  // ---------------------------------------------------------------------
  // Runs of accumulating ingests on one triple
  // ---------------------------------------------------------------------

  /** One ingest: the fact, the clock reading and the fresh state id. */
  datatype Event = Event(fact: Fact, now: real, stateId: string)

  function Run(rows: seq<Row>, namespace: string, events: seq<Event>): seq<Row> {
    if events == [] then rows
    else
      var e := events[|events|-1];
      Ingested(Run(rows, namespace, events[..|events|-1]), namespace, e.fact, e.now, e.stateId)
  }

  /** Accumulating facts of one triple: certain enough, with objects as AtomicFact admits them and fresh state ids. */
  ghost predicate Accumulating(namespace: string, t: Triple, events: seq<Event>) {
    (forall e <- events :: ItemOf(namespace, t, e)) && FreshIds(events)
  }

  function Texts(events: seq<Event>): seq<string> {
    seq(|events|, i requires 0 <= i < |events| => events[i].fact.obj)
  }

  /** What a reader of the newest active row sees. */
  predicate Shows(rows: seq<Row>, t: Triple, items: seq<string>) {
    var active := ActiveRows(rows, t);
    if active == [] then items == [] else ParseItems(active[0].value) == items
  }

  /** The ingest brings no item to write, or what it writes becomes the newest row of its triple. */
  predicate LandsOnTop(rows: seq<Row>, t: Triple, e: Event) {
    var active := ActiveRows(rows, t);
    active == [] || e.fact.obj in ParseItems(active[0].value) || ParseItems(e.fact.obj) == []
    || Reconciled(Stamps(rows, t), e.now) > active[0].validFrom
  }

  /** An appended row joins the active ones by its time stamp. */
  lemma {:induction false} AppendedIsActive(rows: seq<Row>, r: Row)
    requires r.validTo == None
    ensures ActiveRows(rows + [r], r.triple) == InsertNewest(r, ActiveRows(rows, r.triple))
  {}

  predicate ItemOf(namespace: string, t: Triple, e: Event) {
    TripleOf(namespace, e.fact) == t && e.fact.accumulate && e.fact.certainty != Vague && IsStripped(e.fact.obj)
  }

  /** The row with the merged list, put among the active ones. */
  lemma {:induction false} MergedIngest(rows: seq<Row>, namespace: string, t: Triple, e: Event, items: seq<string>)
    requires ItemOf(namespace, t, e) && ActiveRows(rows, t) != [] && ParseItems(ActiveRows(rows, t)[0].value) == items
    requires e.fact.obj !in items
    ensures var r := Row(e.stateId, t, Join(items + [e.fact.obj]), Reconciled(Stamps(rows, t), e.now), None,
                         e.fact.anchor, e.fact.tagged);
            ActiveRows(Ingested(rows, namespace, e.fact, e.now, e.stateId), t) == InsertNewest(r, ActiveRows(rows, t))
  {}

  lemma {:induction false} FirstIngest(rows: seq<Row>, namespace: string, t: Triple, e: Event)
    requires ItemOf(namespace, t, e) && ActiveRows(rows, t) == []
    ensures Shows(Ingested(rows, namespace, e.fact, e.now, e.stateId), t, ParseItems(e.fact.obj))
  {
    var after := Ingested(rows, namespace, e.fact, e.now, e.stateId);
    var r := after[|rows|];
    assert after == rows + [r] && r.value == e.fact.obj;
    AppendedIsActive(rows, r);
    assert ActiveRows(after, t) == [r];
  }

  /** One accumulating ingest adds what its text holds for the reader exactly when it lands on top. */
  lemma {:induction false} OneIngest(rows: seq<Row>, namespace: string, t: Triple, e: Event, items: seq<string>)
    requires ItemOf(namespace, t, e) && Shows(rows, t, items)
    ensures LandsOnTop(rows, t, e) <==>
            Shows(Ingested(rows, namespace, e.fact, e.now, e.stateId), t,
                  if e.fact.obj in items then items else items + ParseItems(e.fact.obj))
  {
    if ActiveRows(rows, t) == [] {
      FirstIngest(rows, namespace, t, e);
      assert items + ParseItems(e.fact.obj) == ParseItems(e.fact.obj);
    } else if e.fact.obj !in items {
      MergedIngest(rows, namespace, t, e, items);
      ListWithOneMore(ActiveRows(rows, t)[0].value, e.fact.obj);
      assert |items + ParseItems(e.fact.obj)| == |items| + |ParseItems(e.fact.obj)|;
      NewestIsTaken(rows, t, e.now);
    }
  }

  /** The list that a merge writes is read back as the old items and those of the new text. */
  lemma {:induction false} ListWithOneMore(value: string, text: string)
    ensures ParseItems(Join(ParseItems(value) + [text])) == ParseItems(value) + ParseItems(text)
  {
    var texts := ParseItems(value) + [text];
    ParsedAreItems(value);
    FlatOfItems(ParseItems(value));
    ParseOfJoin(texts);
    assert texts[..|texts|-1] == ParseItems(value);
  }

  /** A text that holds a comma is never taken for a repeat, whatever the store holds. */
  lemma {:induction false} CommaIsNeverRepeated(rows: seq<Row>, namespace: string, f: Fact)
    requires ',' in f.obj && Strip(f.obj) == f.obj
    ensures !Repeated(rows, namespace, f)
  {
    var existing := ActiveRows(rows, TripleOf(namespace, f));
    if existing != [] {
      ParsedAreItems(existing[0].value);
    }
  }

  /** A first fact that arrives again is taken for a repeat exactly when its object holds no comma. */
  lemma {:induction false} RepeatIsNoticed(rows: seq<Row>, namespace: string, t: Triple, e: Event)
    requires ItemOf(namespace, t, e) && ActiveRows(rows, t) == []
    ensures Repeated(Ingested(rows, namespace, e.fact, e.now, e.stateId), namespace, e.fact) <==> ',' !in e.fact.obj
  {
    var after := Ingested(rows, namespace, e.fact, e.now, e.stateId);
    FirstIngest(rows, namespace, t, e);
    AppendedIsActive(rows, after[|rows|]);
    if ',' in e.fact.obj {
      CommaIsNeverRepeated(after, namespace, e.fact);
    } else {
      OnlyCommasSplit(e.fact.obj);
    }
  }

  /** A reconciled time stamp is never that of the newest row. */
  lemma {:induction false} NewestIsTaken(rows: seq<Row>, t: Triple, now: real)
    requires ActiveRows(rows, t) != []
    ensures Reconciled(Stamps(rows, t), now) != ActiveRows(rows, t)[0].validFrom
  {
    ActiveRowsAreActive(rows, t);
    StampsAreTaken(rows, t);
    var k := ActiveRows(rows, t)[0];
    assert k in ActiveRows(rows, t);
    var stamps := Stamps(rows, t);
    var i :| 0 <= i < |stamps| && stamps[i] == k.validFrom;
    assert !Near(Reconciled(stamps, now), stamps[i]);
  }

  lemma {:induction false} IngestKeepsKeys(rows: seq<Row>, namespace: string, f: Fact, now: real, stateId: string)
    requires WellKeyed(rows) && forall r <- rows :: r.stateId != stateId
    ensures WellKeyed(Ingested(rows, namespace, f, now, stateId))
    ensures forall r <- Ingested(rows, namespace, f, now, stateId) :: r in rows || r.stateId == stateId
  {
    var existing := ActiveRows(rows, TripleOf(namespace, f));
    var g := if f.accumulate && existing != [] then Merged(f, existing[0]) else f;
    UpsertKeepsKeys(rows, stateId, TripleOf(namespace, g), g.obj,
                    if g.validFrom == None then now else g.validFrom.value, g.anchor, g.tagged);
  }

  ghost predicate FreshIds(events: seq<Event>) {
    forall i, j :: 0 <= i < j < |events| ==> events[i].stateId != events[j].stateId
  }

  predicate HasId(events: seq<Event>, id: string) { exists e <- events :: e.stateId == id }

  lemma {:induction false} RunKeepsKeys(namespace: string, events: seq<Event>)
    requires FreshIds(events)
    ensures WellKeyed(Run([], namespace, events))
    ensures forall r <- Run([], namespace, events) :: HasId(events, r.stateId)
  {
    if events != [] {
      var n := |events| - 1;
      var front, e := events[..n], events[n];
      assert e in events && forall x <- front :: x in events;
      RunKeepsKeys(namespace, front);
      assert !HasId(front, e.stateId);
      IngestKeepsKeys(Run([], namespace, front), namespace, e.fact, e.now, e.stateId);
    }
  }

  /** After the run a reader sees the items of all texts that arrived, in order, except of texts listed already. */
  predicate ShowsArrivals(namespace: string, t: Triple, events: seq<Event>) {
    Shows(Run([], namespace, events), t, Arrivals(Texts(events)))
  }

  /** So it is after every ingest of the run. */
  predicate ShowsThroughout(namespace: string, t: Triple, events: seq<Event>) {
    ShowsArrivals(namespace, t, events) && (events != [] ==> ShowsThroughout(namespace, t, events[..|events|-1]))
  }

  /** Every list the run writes lands on top. */
  predicate LandsThroughout(namespace: string, t: Triple, events: seq<Event>) {
    events != [] ==>
      LandsThroughout(namespace, t, events[..|events|-1])
      && LandsOnTop(Run([], namespace, events[..|events|-1]), t, events[|events|-1])
  }

  /**
   Over any run from an empty store, a reader sees after every ingest exactly the items
   that arrived, in order, if and only if every written list lands on top. Of texts without
   commas these are the distinct texts (CommaText.ArrivalsAreTheFirst).
   */
  lemma {:induction false} EveryItemStaysVisible(namespace: string, t: Triple, events: seq<Event>)
    requires Accumulating(namespace, t, events)
    ensures ShowsThroughout(namespace, t, events) <==> LandsThroughout(namespace, t, events)
  {
    if events != [] {
      var front := events[..|events|-1];
      assert forall x <- front :: x in events;
      EveryItemStaysVisible(namespace, t, front);
      if ShowsArrivals(namespace, t, front) {
        LastIngest(namespace, t, events);
      }
    }
  }

  lemma {:induction false} LastIngest(namespace: string, t: Triple, events: seq<Event>)
    requires Accumulating(namespace, t, events) && events != []
    requires ShowsArrivals(namespace, t, events[..|events|-1])
    ensures ShowsArrivals(namespace, t, events) <==>
            LandsOnTop(Run([], namespace, events[..|events|-1]), t, events[|events|-1])
  {
    var front, e := events[..|events|-1], events[|events|-1];
    assert e in events && forall x <- front :: x in events;
    assert Texts(events) == Texts(front) + [e.fact.obj];
    assert Texts(events)[..|front|] == Texts(front);
    OneIngest(Run([], namespace, front), namespace, t, e, Arrivals(Texts(front)));
  }

  /** A clock reading not before the newest row's time stamp is enough to land on top. */
  lemma {:induction false} LaterClockLandsOnTop(rows: seq<Row>, t: Triple, e: Event)
    requires ActiveRows(rows, t) != [] ==> e.now >= ActiveRows(rows, t)[0].validFrom
    ensures LandsOnTop(rows, t, e)
  {
    if ActiveRows(rows, t) != [] {
      NewestIsTaken(rows, t, e.now);
    }
  }

  /** A clock reading further back than all nudges reach leaves the new items, if there are any, out of sight. */
  lemma {:induction false} EarlierClockStaysBelow(rows: seq<Row>, t: Triple, e: Event)
    requires ActiveRows(rows, t) != [] && e.fact.obj !in ParseItems(ActiveRows(rows, t)[0].value)
    requires e.now + Ahead(Stamps(rows, t), e.now) as real * NUDGE < ActiveRows(rows, t)[0].validFrom
    ensures LandsOnTop(rows, t, e) <==> ParseItems(e.fact.obj) == []
  {
    ReconciledIsClose(Stamps(rows, t), e.now);
  }

  /** A first item dated in the future hides the item added before that date: a reader sees the first one only. */
  lemma {:induction false} FutureItemHidesTheNext(cafe: string, park: string)
    requires IsItem(cafe) && IsItem(park) && cafe != park
    ensures var first := Fact("user", "visited", cafe, Certain, "chunk-1", Some(1000.0), false, true);
            var second := Fact("user", "visited", park, Certain, "chunk-2", None, false, true);
            var events := [Event(first, 10.0, "a"), Event(second, 10.0, "b")];
            var t := Triple("ws", "user", "visited");
            Accumulating("ws", t, events) && !ShowsThroughout("ws", t, events)
  {
    var t := Triple("ws", "user", "visited");
    var first := Event(Fact("user", "visited", cafe, Certain, "chunk-1", Some(1000.0), false, true), 10.0, "a");
    var second := Event(Fact("user", "visited", park, Certain, "chunk-2", None, false, true), 10.0, "b");
    FirstComesLate("ws", t, first);
    SecondIsHidden(Row("a", t, cafe, 1000.0, None, "chunk-1", false), second);
    TwoEvents("ws", t, first, second);
  }

  lemma {:induction false} TwoEvents(namespace: string, t: Triple, first: Event, second: Event)
    requires ItemOf(namespace, t, first) && ItemOf(namespace, t, second) && first.stateId != second.stateId
    requires !LandsOnTop(Run([], namespace, [first]), t, second)
    ensures Accumulating(namespace, t, [first, second]) && !ShowsThroughout(namespace, t, [first, second])
  {
    var events := [first, second];
    assert events[..1] == [first] && events[1] == second;
    assert !LandsThroughout(namespace, t, events);
    EveryItemStaysVisible(namespace, t, events);
  }

  lemma {:induction false} SecondIsHidden(r: Row, e: Event)
    requires ActiveRows([r], r.triple) == [r] && Stamps([r], r.triple) == [1000.0] && Ahead([1000.0], 10.0) == 1
    requires r.validFrom == 1000.0 && e.now == 10.0
    requires IsItem(r.value) && IsItem(e.fact.obj) && r.value != e.fact.obj
    ensures !LandsOnTop([r], r.triple, e)
  {
    OnlyCommasSplit(r.value);
    OnlyCommasSplit(e.fact.obj);
    EarlierClockStaysBelow([r], r.triple, e);
  }

  lemma {:induction false} FirstComesLate(namespace: string, t: Triple, e: Event)
    requires TripleOf(namespace, e.fact) == t && e.fact.certainty != Vague && e.fact.validFrom == Some(1000.0)
    ensures var r := Row(e.stateId, t, e.fact.obj, 1000.0, None, e.fact.anchor, e.fact.tagged);
            Run([], namespace, [e]) == [r] && ActiveRows([r], t) == [r] && Stamps([r], t) == [1000.0]
            && Ahead([1000.0], 10.0) == 1
  {}

  // ---------------------------------------------------------------------
  // Runs of single-valued facts on one triple
  // ---------------------------------------------------------------------

  predicate SingleOf(namespace: string, t: Triple, e: Event) {
    TripleOf(namespace, e.fact) == t && !e.fact.accumulate && e.fact.certainty != Vague
  }

  /** Single-valued facts of one triple, with fresh state ids. */
  ghost predicate Updating(namespace: string, t: Triple, events: seq<Event>) {
    (forall e <- events :: SingleOf(namespace, t, e)) && FreshIds(events)
  }

  /** The time stamp the fact gets is ahead of every active row of its triple. */
  predicate TakesOver(rows: seq<Row>, t: Triple, e: Event) {
    var active := ActiveRows(rows, t);
    active == [] || Reconciled(Stamps(rows, t), TimeOf(e.fact, e.now)) > active[0].validFrom
  }

  /** An update is what a reader sees exactly when it takes over; else the reader sees what was there. */
  lemma {:induction false} UpdateIsSeen(rows: seq<Row>, namespace: string, t: Triple, e: Event)
    requires SingleOf(namespace, t, e) && forall r <- rows :: r.stateId != e.stateId
    ensures var before := ActiveRows(rows, t);
            var after := ActiveRows(Ingested(rows, namespace, e.fact, e.now, e.stateId), t);
            after != [] && (TakesOver(rows, t, e) <==> after[0].stateId == e.stateId)
            && (TakesOver(rows, t, e) ==> after[0].value == e.fact.obj)
            && (!TakesOver(rows, t, e) ==> after[0] == before[0])
            && (after[0].value == e.fact.obj <==>
                TakesOver(rows, t, e) || (before != [] && before[0].value == e.fact.obj))
  {
    var after := Ingested(rows, namespace, e.fact, e.now, e.stateId);
    EveryCertainFactIsStored(rows, namespace, e.fact, e.now, e.stateId);
    var r := after[|rows|];
    assert after == rows + [r];
    AppendedIsActive(rows, r);
    if ActiveRows(rows, t) != [] {
      NewestIsTaken(rows, t, TimeOf(e.fact, e.now));
      ActiveRowsAreActive(rows, t);
      assert ActiveRows(rows, t)[0] in ActiveRows(rows, t);
    }
  }

  /** After every event of the run a reader sees the row and the object of that event. */
  predicate ShowsLastThroughout(namespace: string, t: Triple, events: seq<Event>) {
    events != [] ==>
      var active, last := ActiveRows(Run([], namespace, events), t), events[|events|-1];
      active != [] && active[0].stateId == last.stateId && active[0].value == last.fact.obj
      && ShowsLastThroughout(namespace, t, events[..|events|-1])
  }

  predicate TakesOverThroughout(namespace: string, t: Triple, events: seq<Event>) {
    events != [] ==>
      TakesOverThroughout(namespace, t, events[..|events|-1])
      && TakesOver(Run([], namespace, events[..|events|-1]), t, events[|events|-1])
  }

  /** Over any run of updates a reader sees each one from when it is made exactly when each one takes over. */
  lemma {:induction false} EveryUpdateIsSeen(namespace: string, t: Triple, events: seq<Event>)
    requires Updating(namespace, t, events)
    ensures ShowsLastThroughout(namespace, t, events) <==> TakesOverThroughout(namespace, t, events)
  {
    if events != [] {
      var front, e := events[..|events|-1], events[|events|-1];
      assert e in events && forall x <- front :: x in events;
      EveryUpdateIsSeen(namespace, t, front);
      RunKeepsKeys(namespace, front);
      assert !HasId(front, e.stateId);
      UpdateIsSeen(Run([], namespace, front), namespace, t, e);
    }
  }

  /** A fact dated no earlier than the newest active row takes over. */
  lemma {:induction false} LaterFactTakesOver(rows: seq<Row>, t: Triple, e: Event)
    requires ActiveRows(rows, t) != [] ==> TimeOf(e.fact, e.now) >= ActiveRows(rows, t)[0].validFrom
    ensures TakesOver(rows, t, e)
  {
    if ActiveRows(rows, t) != [] {
      NewestIsTaken(rows, t, TimeOf(e.fact, e.now));
    }
  }

  /** A fact dated further back than all nudges reach does not, and stays out of sight. */
  lemma {:induction false} BackdatedFactIsHidden(rows: seq<Row>, namespace: string, t: Triple, e: Event)
    requires SingleOf(namespace, t, e) && ActiveRows(rows, t) != [] && forall r <- rows :: r.stateId != e.stateId
    requires var ts := TimeOf(e.fact, e.now);
             ts + Ahead(Stamps(rows, t), ts) as real * NUDGE < ActiveRows(rows, t)[0].validFrom
    ensures ActiveRows(Ingested(rows, namespace, e.fact, e.now, e.stateId), t)[..1] == ActiveRows(rows, t)[..1]
  {
    ReconciledIsClose(Stamps(rows, t), TimeOf(e.fact, e.now));
    UpdateIsSeen(rows, namespace, t, e);
  }
}
