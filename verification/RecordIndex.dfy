/**
 From recall hits back to records (adapters/memory/engine.py): the index built once per
 answer, and the identity a promoted fact carries (fact_promoter.py).
 */
module RecordIndex {
  import opened Basics
  import opened FactIdentity

  datatype FactText = FactText(subject: string, attribute: string, obj: string)

  /** fact: the metadata fields of a promoted fact, when they are there. */
  datatype Record = Record(
    recordId: string, key: string, content: string, fact: Option<FactText>, sourceIds: seq<string>)

  datatype Event = Event(
    eventId: string, subject: string, action: string, obj: string, timestamp: string, sourceAnchor: string)

  /** What an id resolves to: a record, or the stand-in built for an event. */
  datatype Hit = OfRecord(record: Record) | OfEvent(event: Event)

  datatype AtomicFact = AtomicFact(subject: string, attribute: string, obj: string, sourceAnchor: string)

  /** How subject, predicate and object are guessed from key and content when the metadata lacks them. */
  type Guess = (string, string) -> FactText

  predicate HasFact(r: Record) {
    r.fact.Some? && r.fact.value.subject != "" && r.fact.value.attribute != "" && r.fact.value.obj != ""
  }

  function FirstAnchor(r: Record): string { if r.sourceIds != [] then r.sourceIds[0] else "" }

  /** _record_to_fact_id, strategy A. */
  function AliasA(sha: Hash, guess: Guess, r: Record): string {
    var f := if HasFact(r) then r.fact.value else guess(r.key, r.content);
    "fact:" + sha(f.subject + "|" + f.attribute + "|" + f.obj + "|" + FirstAnchor(r))
  }

  /** Strategy B. */
  function AliasB(sha: Hash, r: Record): string {
    "fact:" + sha(r.key + "|" + "content" + "|" + r.content + "|" + r.recordId)
  }

  function EventMemoryId(sha: Hash, e: Event): string {
    "fact:" + sha(e.subject + "|" + e.action + "|" + (e.obj + " (" + e.timestamp + ")") + "|" + e.sourceAnchor)
  }

  /** The id part of _candidate_to_memory_recall; an original memory id is passed on. */
  function RecallId(sha: Hash, fact: AtomicFact, original: Option<string>): string {
    if original.Some? then original.value
    else "fact:" + sha(fact.subject + "|" + fact.attribute + "|" + fact.obj + "|" + fact.sourceAnchor)
  }

  /** The identity, anchor and metadata fields of _make_record. */
  function Promoted(sha: Hash, fact: AtomicFact, content: string): Record {
    Record(FactRecordId(sha, fact.subject, fact.attribute, fact.obj, fact.sourceAnchor),
           fact.subject + "." + fact.attribute + "."
           + FactDigest(sha, fact.subject, fact.attribute, fact.obj, fact.sourceAnchor),
           content, Some(FactText(fact.subject, fact.attribute, fact.obj)),
           if fact.sourceAnchor != "" then [fact.sourceAnchor] else [])
  }

  // ---------------------------------------------------------------------
  // The scan
  // ---------------------------------------------------------------------

  function LastWithId(records: seq<Record>, id: string): Option<Hit> {
    if records == [] then None
    else if records[|records|-1].recordId == id then Some(OfRecord(records[|records|-1]))
    else LastWithId(records[..|records|-1], id)
  }

  predicate Answers(sha: Hash, guess: Guess, r: Record, id: string) {
    AliasA(sha, guess, r) == id || AliasB(sha, r) == id
  }

  function FirstWithAlias(sha: Hash, guess: Guess, records: seq<Record>, id: string): Option<Hit> {
    if records == [] then None
    else
      var earlier := FirstWithAlias(sha, guess, records[..|records|-1], id);
      if earlier == None && Answers(sha, guess, records[|records|-1], id) then Some(OfRecord(records[|records|-1]))
      else earlier
  }

  predicate IsEvent(sha: Hash, e: Event, id: string) { EventMemoryId(sha, e) == id || e.eventId == id }

  function FirstEvent(sha: Hash, events: seq<Event>, id: string): Option<Hit> {
    if events == [] then None
    else
      var earlier := FirstEvent(sha, events[..|events|-1], id);
      if earlier == None && IsEvent(sha, events[|events|-1], id) then Some(OfEvent(events[|events|-1])) else earlier
  }

  function Or(a: Option<Hit>, b: Option<Hit>): Option<Hit> { if a.Some? then a else b }

  /** A linear scan: the last record with that very id, else the first with that alias, else the first event. */
  function Scan(sha: Hash, guess: Guess, records: seq<Record>, events: seq<Event>, id: string): Option<Hit> {
    Or(LastWithId(records, id), Or(FirstWithAlias(sha, guess, records, id), FirstEvent(sha, events, id)))
  }

  // ---------------------------------------------------------------------
  // The index
  // ---------------------------------------------------------------------

  function Lookup(index: map<string, Hit>, id: string): Option<Hit> { if id in index then Some(index[id]) else None }

  function SetDefault(index: map<string, Hit>, id: string, hit: Hit): map<string, Hit> {
    if id in index then index else index[id := hit]
  }

  ghost predicate AfterAliases(sha: Hash, guess: Guess, index: map<string, Hit>, records: seq<Record>) {
    forall id :: Lookup(index, id) == FirstWithAlias(sha, guess, records, id)
  }

  ghost predicate AfterIds(sha: Hash, guess: Guess, index: map<string, Hit>, all: seq<Record>, records: seq<Record>) {
    forall id :: Lookup(index, id) == Or(LastWithId(records, id), FirstWithAlias(sha, guess, all, id))
  }

  ghost predicate AfterEvents(sha: Hash, guess: Guess, index: map<string, Hit>, all: seq<Record>, events: seq<Event>) {
    forall id :: Lookup(index, id) == Scan(sha, guess, all, events, id)
  }

  lemma {:induction false} NextAlias(sha: Hash, guess: Guess, index: map<string, Hit>, records: seq<Record>, i: nat)
    requires i < |records| && AfterAliases(sha, guess, index, records[..i])
    ensures var r := records[i];
            var next := SetDefault(SetDefault(index, AliasA(sha, guess, r), OfRecord(r)), AliasB(sha, r), OfRecord(r));
            AfterAliases(sha, guess, next, records[..i+1])
  {
    assert records[..i+1][..i] == records[..i];
    var r := records[i];
    var next := SetDefault(SetDefault(index, AliasA(sha, guess, r), OfRecord(r)), AliasB(sha, r), OfRecord(r));
    forall id ensures Lookup(next, id) == FirstWithAlias(sha, guess, records[..i+1], id) {
      assert Lookup(index, id) == FirstWithAlias(sha, guess, records[..i], id);
    }
  }

  lemma {:induction false} NextId(sha: Hash, guess: Guess, index: map<string, Hit>, records: seq<Record>, i: nat)
    requires i < |records| && AfterIds(sha, guess, index, records, records[..i])
    ensures AfterIds(sha, guess, index[records[i].recordId := OfRecord(records[i])], records, records[..i+1])
  {
    assert records[..i+1][..i] == records[..i];
    var next := index[records[i].recordId := OfRecord(records[i])];
    forall id ensures Lookup(next, id) == Or(LastWithId(records[..i+1], id), FirstWithAlias(sha, guess, records, id)) {
      assert Lookup(index, id) == Or(LastWithId(records[..i], id), FirstWithAlias(sha, guess, records, id));
    }
  }

  lemma {:induction false} NextEvent(sha: Hash, guess: Guess, index: map<string, Hit>, all: seq<Record>,
                                     events: seq<Event>, i: nat)
    requires i < |events| && AfterEvents(sha, guess, index, all, events[..i])
    ensures var e := events[i];
            var next := SetDefault(SetDefault(index, EventMemoryId(sha, e), OfEvent(e)), e.eventId, OfEvent(e));
            AfterEvents(sha, guess, next, all, events[..i+1])
  {
    assert events[..i+1][..i] == events[..i];
    var e := events[i];
    var next := SetDefault(SetDefault(index, EventMemoryId(sha, e), OfEvent(e)), e.eventId, OfEvent(e));
    forall id ensures Lookup(next, id) == Scan(sha, guess, all, events[..i+1], id) {
      assert Lookup(index, id) == Scan(sha, guess, all, events[..i], id);
    }
  }

  /** The three passes answer every id as the scan does. */
  method BuildRecordIndex(sha: Hash, guess: Guess, records: seq<Record>, events: seq<Event>)
    returns (index: map<string, Hit>)
    ensures forall id :: Lookup(index, id) == Scan(sha, guess, records, events, id)
  {
    index := map[];
    for i := 0 to |records|
      invariant AfterAliases(sha, guess, index, records[..i])
    {
      NextAlias(sha, guess, index, records, i);
      index := SetDefault(index, AliasA(sha, guess, records[i]), OfRecord(records[i]));
      index := SetDefault(index, AliasB(sha, records[i]), OfRecord(records[i]));
    }
    assert records[..|records|] == records;
    for i := 0 to |records|
      invariant AfterIds(sha, guess, index, records, records[..i])
    {
      NextId(sha, guess, index, records, i);
      index := index[records[i].recordId := OfRecord(records[i])];
    }
    for i := 0 to |events|
      invariant AfterEvents(sha, guess, index, records, events[..i])
    {
      NextEvent(sha, guess, index, records, events, i);
      index := SetDefault(index, EventMemoryId(sha, events[i]), OfEvent(events[i]));
      index := SetDefault(index, events[i].eventId, OfEvent(events[i]));
    }
    assert events[..|events|] == events;
  }

  // ---------------------------------------------------------------------
  // Identity
  // ---------------------------------------------------------------------

  /** A fact of which every field is filled. */
  predicate IsFilled(f: AtomicFact) { f.subject != "" && f.attribute != "" && f.obj != "" }

  function QuadOf(f: AtomicFact): Quad { Quad(f.subject, f.attribute, f.obj, f.sourceAnchor) }

  predicate IsDelimiterFree(f: AtomicFact) { DelimiterFree(f.subject, f.attribute, f.sourceAnchor) }

  lemma {:induction false} SamePlainText(a: string, b: string, c: string, d: string)
    ensures a + "|" + b + "|" + c + "|" + d == Plain(a, b, c, d)
  {}

  /** The fact as which the retrievers hand on an event. */
  function FactOfEvent(e: Event): AtomicFact {
    AtomicFact(e.subject, e.action, e.obj + " (" + e.timestamp + ")", e.sourceAnchor)
  }

  /** An event is indexed under the id of its recall, which finds the first such event when no record answers. */
  lemma {:induction false} EventsAreRecalled(sha: Hash, guess: Guess, records: seq<Record>, events: seq<Event>,
                                             e: Event)
    requires e in events
    ensures var id := RecallId(sha, FactOfEvent(e), None);
            EventMemoryId(sha, e) == id
            && ((forall r <- records :: r.recordId != id && !Answers(sha, guess, r, id)) ==>
                  exists k :: 0 <= k < |events| && IsEvent(sha, events[k], id)
                              && Scan(sha, guess, records, events, id) == Some(OfEvent(events[k]))
                              && forall j :: 0 <= j < k ==> !IsEvent(sha, events[j], id))
  {
    var id := RecallId(sha, FactOfEvent(e), None);
    LastRecordCounts(records, id);
    FirstAliasCounts(sha, guess, records, id);
    FirstEventCounts(sha, events, id);
  }

  /** Of records with one id the last one counts. */
  lemma {:induction false} LastRecordCounts(records: seq<Record>, id: string)
    ensures match LastWithId(records, id)
            case Some(hit) => exists k :: 0 <= k < |records| && hit == OfRecord(records[k]) && records[k].recordId == id
                                          && forall j :: k < j < |records| ==> records[j].recordId != id
            case None => forall j :: 0 <= j < |records| ==> records[j].recordId != id
  {
    if records != [] {
      var front := records[..|records|-1];
      LastRecordCounts(front, id);
      assert forall j :: 0 <= j < |front| ==> front[j] == records[j];
    }
  }

  /** Of records that answer by an alias the first one counts. */
  lemma {:induction false} FirstAliasCounts(sha: Hash, guess: Guess, records: seq<Record>, id: string)
    ensures match FirstWithAlias(sha, guess, records, id)
            case Some(hit) => exists k :: 0 <= k < |records| && hit == OfRecord(records[k])
                                          && Answers(sha, guess, records[k], id)
                                          && forall j :: 0 <= j < k ==> !Answers(sha, guess, records[j], id)
            case None => forall j :: 0 <= j < |records| ==> !Answers(sha, guess, records[j], id)
  {
    if records != [] {
      var front := records[..|records|-1];
      FirstAliasCounts(sha, guess, front, id);
      assert forall j :: 0 <= j < |front| ==> front[j] == records[j];
    }
  }

  /** Of events with one id the first one counts. */
  lemma {:induction false} FirstEventCounts(sha: Hash, events: seq<Event>, id: string)
    ensures match FirstEvent(sha, events, id)
            case Some(hit) => exists k :: 0 <= k < |events| && hit == OfEvent(events[k]) && IsEvent(sha, events[k], id)
                                          && forall j :: 0 <= j < k ==> !IsEvent(sha, events[j], id)
            case None => forall j :: 0 <= j < |events| ==> !IsEvent(sha, events[j], id)
  {
    if events != [] {
      var front := events[..|events|-1];
      FirstEventCounts(sha, front, id);
      assert forall j :: 0 <= j < |front| ==> front[j] == events[j];
    }
  }

  /** The three separately written formulas give one id, for every fact. */
  lemma {:induction false} FormulasCoincide(sha: Hash, guess: Guess, fact: AtomicFact, content: string)
    ensures RecallId(sha, fact, None) == Promoted(sha, fact, content).recordId
    ensures IsFilled(fact) ==> AliasA(sha, guess, Promoted(sha, fact, content)) == Promoted(sha, fact, content).recordId
  {
    SamePlainText(fact.subject, fact.attribute, fact.obj, fact.sourceAnchor);
    assert FirstAnchor(Promoted(sha, fact, content)) == fact.sourceAnchor;
  }

  /** r carries the fact: its fields and its anchor. */
  predicate Carries(r: Record, fact: AtomicFact) {
    r.fact == Some(FactText(fact.subject, fact.attribute, fact.obj))
    && fact.sourceAnchor == if r.sourceIds == [] then "" else r.sourceIds[0]
  }

  /** Records whose id looks like a fact's were promoted from a fact without delimiters. */
  ghost predicate PromotedOnly(sha: Hash, records: seq<Record>) {
    forall r <- records :: "fact:" <= r.recordId ==>
      exists f: AtomicFact, content: string :: IsDelimiterFree(f) && r == Promoted(sha, f, content)
  }

  lemma {:induction false} LastWithIdFinds(records: seq<Record>, id: string)
    ensures match LastWithId(records, id)
            case Some(hit) => hit.OfRecord? && hit.record in records && hit.record.recordId == id
            case None => forall r <- records :: r.recordId != id
  {
    if records != [] {
      LastWithIdFinds(records[..|records|-1], id);
      assert records == records[..|records|-1] + [records[|records|-1]];
    }
  }

  /**
   Whatever else is stored, the recall of a promoted fact resolves to a record under the
   fact's own id; if that record was promoted, then from a fact with the same namesake.
   Conversely every fact with that namesake, when recalled, resolves to this record.
   */
  lemma {:induction false} RecallFindsANamesake(sha: Hash, guess: Guess, records: seq<Record>, events: seq<Event>,
                                                fact: AtomicFact, content: string)
    requires Injective(sha) && Promoted(sha, fact, content) in records
    ensures var hit := Scan(sha, guess, records, events, RecallId(sha, fact, None));
            hit.Some? && hit.value.OfRecord? && hit.value.record in records
            && hit.value.record.recordId == FactRecordId(sha, fact.subject, fact.attribute, fact.obj, fact.sourceAnchor)
            && (forall f: AtomicFact, c: string :: hit.value.record == Promoted(sha, f, c) ==>
                  Namesake(QuadOf(f)) == Namesake(QuadOf(fact)))
            && forall f: AtomicFact :: Namesake(QuadOf(f)) == Namesake(QuadOf(fact)) ==>
                 Scan(sha, guess, records, events, RecallId(sha, f, None)) == hit
  {
    var id := RecallId(sha, fact, None);
    FormulasCoincide(sha, guess, fact, content);
    LastWithIdFinds(records, id);
    assert Promoted(sha, fact, content).recordId == id;
    forall f: AtomicFact
      ensures RecallId(sha, f, None) == id <==> Namesake(QuadOf(f)) == Namesake(QuadOf(fact))
      ensures forall c: string :: Promoted(sha, f, c).recordId == RecallId(sha, f, None)
    {
      RecallIdIsTheNamesakes(sha, f, fact);
      forall c: string ensures Promoted(sha, f, c).recordId == RecallId(sha, f, None) {
        FormulasCoincide(sha, guess, f, c);
      }
    }
  }

  lemma {:induction false} RecallIdIsTheNamesakes(sha: Hash, f: AtomicFact, g: AtomicFact)
    requires Injective(sha)
    ensures RecallId(sha, f, None) == RecallId(sha, g, None) <==> Namesake(QuadOf(f)) == Namesake(QuadOf(g))
  {
    SamePlainText(f.subject, f.attribute, f.obj, f.sourceAnchor);
    SamePlainText(g.subject, g.attribute, g.obj, g.sourceAnchor);
    SameIdMeansSameNamesake(sha, QuadOf(f), QuadOf(g));
  }

  /** Among promoted facts without delimiters, the recall of a fact resolves to a record that carries that very fact. */
  lemma {:induction false} RecallFindsItsRecord(sha: Hash, guess: Guess, records: seq<Record>, events: seq<Event>,
                                                fact: AtomicFact, content: string)
    requires Injective(sha) && IsDelimiterFree(fact) && PromotedOnly(sha, records)
    requires Promoted(sha, fact, content) in records
    ensures var hit := Scan(sha, guess, records, events, RecallId(sha, fact, None));
            hit.Some? && hit.value.OfRecord? && hit.value.record in records && Carries(hit.value.record, fact)
  {
    RecallFindsANamesake(sha, guess, records, events, fact, content);
    var r := Scan(sha, guess, records, events, RecallId(sha, fact, None)).value.record;
    assert "fact:" <= r.recordId;
    var f: AtomicFact, c: string :| IsDelimiterFree(f) && r == Promoted(sha, f, c);
    NamesakeSharesTheText(QuadOf(f));
    NamesakeSharesTheText(QuadOf(fact));
  }

  /** With record ids unique, as the primary key has it, that record is the fact's own. */
  lemma {:induction false} RecallFindsItsOwn(sha: Hash, guess: Guess, records: seq<Record>, events: seq<Event>,
                                             fact: AtomicFact, content: string)
    requires Promoted(sha, fact, content) in records
    requires forall r <- records, s <- records :: r.recordId == s.recordId ==> r == s
    ensures Scan(sha, guess, records, events, RecallId(sha, fact, None)) == Some(OfRecord(Promoted(sha, fact, content)))
  {
    FormulasCoincide(sha, guess, fact, content);
    LastWithIdFinds(records, RecallId(sha, fact, None));
  }

  lemma {:induction false} FirstWithAliasFinds(sha: Hash, guess: Guess, records: seq<Record>, id: string)
    ensures match FirstWithAlias(sha, guess, records, id)
            case Some(hit) => hit.OfRecord? && hit.record in records && Answers(sha, guess, hit.record, id)
            case None => forall r <- records :: !Answers(sha, guess, r, id)
  {
    if records != [] {
      FirstWithAliasFinds(sha, guess, records[..|records|-1], id);
      assert records == records[..|records|-1] + [records[|records|-1]];
    }
  }

  /** What strategy A takes a record for: its metadata, or a guess, with its first anchor. */
  function TakenFor(guess: Guess, r: Record): Quad {
    var f := if HasFact(r) then r.fact.value else guess(r.key, r.content);
    Quad(f.subject, f.attribute, f.obj, FirstAnchor(r))
  }

  /** What strategy B takes it for. */
  function SpelledOut(r: Record): Quad { Quad(r.key, "content", r.content, r.recordId) }

  /** One of the two has the fact's namesake. */
  predicate StandsFor(guess: Guess, r: Record, fact: AtomicFact) {
    Namesake(TakenFor(guess, r)) == Namesake(QuadOf(fact)) || Namesake(SpelledOut(r)) == Namesake(QuadOf(fact))
  }

  /** By its aliases a record answers exactly for the facts it stands for, delimiters or not. */
  lemma {:induction false} AnswersMeanNamesakes(sha: Hash, guess: Guess, r: Record, fact: AtomicFact)
    requires Injective(sha)
    ensures Answers(sha, guess, r, RecallId(sha, fact, None)) <==> StandsFor(guess, r, fact)
  {
    var f := if HasFact(r) then r.fact.value else guess(r.key, r.content);
    SamePlainText(f.subject, f.attribute, f.obj, FirstAnchor(r));
    SamePlainText(fact.subject, fact.attribute, fact.obj, fact.sourceAnchor);
    SameIdMeansSameNamesake(sha, TakenFor(guess, r), QuadOf(fact));
    SpelledOutIsAliasB(sha, r, fact);
  }

  /**
   Recalling a fact that is stored under no id of its own: a record is found exactly when
   one is taken for the fact or spells it, and then such a record is found.
   */
  lemma {:induction false} AliasFindsANamesake(sha: Hash, guess: Guess, records: seq<Record>, events: seq<Event>,
                                               fact: AtomicFact)
    requires Injective(sha) && LastWithId(records, RecallId(sha, fact, None)) == None
    ensures var hit := Scan(sha, guess, records, events, RecallId(sha, fact, None));
            (hit.Some? && hit.value.OfRecord? ==>
               hit.value.record in records
               && StandsFor(guess, hit.value.record, fact))
            && (hit.Some? && hit.value.OfRecord? <==> exists r <- records :: StandsFor(guess, r, fact))
  {
    var id := RecallId(sha, fact, None);
    FirstWithAliasFinds(sha, guess, records, id);
    FirstEventIsAnEvent(sha, events, id);
    forall r | r in records
      ensures Answers(sha, guess, r, id) <==> StandsFor(guess, r, fact)
    {
      AnswersMeanNamesakes(sha, guess, r, fact);
    }
  }

  lemma {:induction false} FirstEventIsAnEvent(sha: Hash, events: seq<Event>, id: string)
    ensures var hit := FirstEvent(sha, events, id);
            hit.Some? ==> hit.value.OfEvent?
  {
    if events != [] {
      FirstEventIsAnEvent(sha, events[..|events|-1], id);
    }
  }

  /**
   A record stored under another id still answers for the fact in its metadata. Whatever
   record answers then carries the same fact, if it has metadata without delimiters and
   its key, content and own id do not spell the fact.
   */
  lemma {:induction false} AliasFindsTheFact(sha: Hash, guess: Guess, records: seq<Record>, events: seq<Event>,
                                             fact: AtomicFact, r: Record)
    requires Injective(sha) && IsFilled(fact) && IsDelimiterFree(fact) && r in records && Carries(r, fact)
    requires LastWithId(records, RecallId(sha, fact, None)) == None
    ensures var hit := Scan(sha, guess, records, events, RecallId(sha, fact, None));
            hit.Some? && hit.value.OfRecord? && hit.value.record in records
            && var found := hit.value.record;
               (HasFact(found)
                && DelimiterFree(found.fact.value.subject, found.fact.value.attribute, FirstAnchor(found))
                && AliasB(sha, found) != RecallId(sha, fact, None)) ==> Carries(found, fact)
  {
    AliasFindsANamesake(sha, guess, records, events, fact);
    assert TakenFor(guess, r) == QuadOf(fact);
    var found := Scan(sha, guess, records, events, RecallId(sha, fact, None)).value.record;
    SpelledOutIsAliasB(sha, found, fact);
    NamesakeSharesTheText(TakenFor(guess, found));
    NamesakeSharesTheText(QuadOf(fact));
  }

  lemma {:induction false} SpelledOutIsAliasB(sha: Hash, r: Record, fact: AtomicFact)
    requires Injective(sha)
    ensures AliasB(sha, r) == RecallId(sha, fact, None) <==> Namesake(SpelledOut(r)) == Namesake(QuadOf(fact))
  {
    SamePlainText(r.key, "content", r.content, r.recordId);
    SamePlainText(fact.subject, fact.attribute, fact.obj, fact.sourceAnchor);
    SameIdMeansSameNamesake(sha, SpelledOut(r), QuadOf(fact));
  }
}
