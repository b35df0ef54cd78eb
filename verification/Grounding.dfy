/**
 Grounding reflected facts in source turns (adapters/memory/dreamer_reflect.py): a fact
 counts as grounded when some turn shares half of its tokens, rounded down, and the first
 turn that shares most supports it. Texts are their token sets; cutting them is not modelled.
 */
module Grounding {
  import opened Basics

  /** sourceAnchor is the stripped metadata entry, empty when there is none. */
  datatype Turn = Turn(turnId: string, sourceAnchor: string, tokens: set<string>)

  datatype ReflectedFact = ReflectedFact(subject: string, attribute: string, obj: string, tokens: set<string>)

  datatype AtomicFact = AtomicFact(subject: string, attribute: string, obj: string, sourceAnchor: string)

  datatype MemoryRecord = MemoryRecord(fact: AtomicFact, turnId: string)

  function Overlap(fact: ReflectedFact, turn: Turn): nat { |fact.tokens * turn.tokens| }

  function Threshold(fact: ReflectedFact): nat { if |fact.tokens| / 2 > 1 then |fact.tokens| / 2 else 1 }

  function Anchor(turn: Turn): string { if turn.sourceAnchor != "" then turn.sourceAnchor else turn.turnId }

  function Grounded(fact: ReflectedFact, turn: Turn): AtomicFact {
    AtomicFact(fact.subject, fact.attribute, fact.obj, Anchor(turn))
  }

  /** The fact as it was reflected, anchored in the turn's source, or in the turn itself when it names none. */
  predicate IsGroundedIn(f: AtomicFact, fact: ReflectedFact, turn: Turn) {
    f.subject == fact.subject && f.attribute == fact.attribute && f.obj == fact.obj
    && (turn.sourceAnchor != "" ==> f.sourceAnchor == turn.sourceAnchor)
    && (turn.sourceAnchor == "" ==> f.sourceAnchor == turn.turnId)
  }

  /** The turn shares the most tokens with the fact, more than every earlier turn, and at least half of them. */
  ghost predicate Supports(fact: ReflectedFact, turns: seq<Turn>, k: int) {
    0 <= k < |turns| && Overlap(fact, turns[k]) >= Threshold(fact)
    && (forall j :: 0 <= j < |turns| ==> Overlap(fact, turns[j]) <= Overlap(fact, turns[k]))
    && forall j :: 0 <= j < k ==> Overlap(fact, turns[j]) < Overlap(fact, turns[k])
  }

  /** No turn shares half of the fact's tokens. */
  ghost predicate Unsupported(fact: ReflectedFact, turns: seq<Turn>) {
    forall j :: 0 <= j < |turns| ==> Overlap(fact, turns[j]) < Threshold(fact)
  }

  /** Half of the tokens, where half of an odd number is rounded down, and at least one. */
  lemma {:induction false} HalfIsRoundedDown(fact: ReflectedFact, shared: nat)
    ensures shared >= Threshold(fact) <==> shared >= 1 && 2 * shared + 1 >= |fact.tokens|
  {}

  lemma {:induction false} SupportIsUnique(fact: ReflectedFact, turns: seq<Turn>, i: int, k: int)
    requires Supports(fact, turns, i) && Supports(fact, turns, k)
    ensures i == k && !Unsupported(fact, turns)
  {}

  lemma {:induction false} EmptyFactIsUnsupported(fact: ReflectedFact, turns: seq<Turn>)
    requires fact.tokens == {}
    ensures Unsupported(fact, turns)
  {}

  /** What a search for the best turn knows after n turns. */
  ghost predicate BestSoFar(fact: ReflectedFact, turns: seq<Turn>, n: nat, best: Option<nat>, overlap: nat) {
    n <= |turns|
    && (forall j :: 0 <= j < n ==> Overlap(fact, turns[j]) <= overlap)
    && (best == None ==> overlap == 0)
    && (best.Some? ==>
          best.value < n && overlap == Overlap(fact, turns[best.value]) > 0
          && forall j :: 0 <= j < best.value ==> Overlap(fact, turns[j]) < overlap)
  }

  /** A fact is grounded exactly when some turn supports it, and then anchored in that turn. */
  method Mutate(fact: ReflectedFact, turns: seq<Turn>) returns (grounded: Option<AtomicFact>)
    ensures match grounded
            case Some(f) =>
              exists k :: Supports(fact, turns, k) && f == Grounded(fact, turns[k]) && IsGroundedIn(f, fact, turns[k])
            case None => Unsupported(fact, turns)
  {
    if fact.tokens == {} {
      EmptyFactIsUnsupported(fact, turns);
      return None;
    }
    var best: Option<nat>, bestOverlap := None, 0;
    for i := 0 to |turns|
      invariant BestSoFar(fact, turns, i, best, bestOverlap)
    {
      var overlap := |fact.tokens * turns[i].tokens|;
      if overlap > bestOverlap {
        bestOverlap := overlap;
        best := Some(i);
      }
    }
    if best == None || bestOverlap < Threshold(fact) {
      return None;
    }
    assert Supports(fact, turns, best.value);
    grounded := Some(Grounded(fact, turns[best.value]));
  }

  method FindSupportingTurn(fact: ReflectedFact, turns: seq<Turn>) returns (turn: Option<Turn>)
    ensures match turn
            case Some(t) => exists k :: Supports(fact, turns, k) && t == turns[k]
            case None => Unsupported(fact, turns)
  {
    if fact.tokens == {} {
      EmptyFactIsUnsupported(fact, turns);
      return None;
    }
    var best: Option<nat>, bestOverlap := None, 0;
    for i := 0 to |turns|
      invariant BestSoFar(fact, turns, i, best, bestOverlap)
    {
      var overlap := |fact.tokens * turns[i].tokens|;
      if overlap > bestOverlap {
        bestOverlap := overlap;
        best := Some(i);
      }
    }
    if best == None || bestOverlap < Threshold(fact) {
      return None;
    }
    assert Supports(fact, turns, best.value);
    turn := Some(turns[best.value]);
  }

  // ---------------------------------------------------------------------
  // Reflection
  // ---------------------------------------------------------------------

  /** Whether a grounded fact, promoted from a turn, is kept at this point of the run. */
  type Evaluate = (AtomicFact, Turn) -> Option<MemoryRecord>

  /** One re-extracted fact, and how its own evaluation would turn out. */
  datatype Trial = Trial(fact: ReflectedFact, evaluate: Evaluate)

  /** What sampling and re-extraction gave for one failing query. */
  datatype Probe = Probe(turns: seq<Turn>, trials: seq<Trial>)

  datatype ReflectionReport = ReflectionReport(
    queriesReflected: nat, factsExtracted: nat, factsGrounded: nat, factsKept: nat, factsRetracted: nat,
    keptRecords: seq<MemoryRecord>)

  /** What becomes of a fact: it is evaluated in the turn that supports it, and anchored in that same turn. */
  ghost function Verdict(trial: Trial, turns: seq<Turn>): Option<MemoryRecord> {
    if k :| Supports(trial.fact, turns, k) then trial.evaluate(Grounded(trial.fact, turns[k]), turns[k]) else None
  }

  method ReflectFact(trial: Trial, turns: seq<Turn>) returns (grounded: nat, kept: Option<MemoryRecord>)
    requires turns != []
    ensures grounded == if Unsupported(trial.fact, turns) then 0 else 1
    ensures kept == Verdict(trial, turns) && (kept.Some? ==> grounded == 1)
  {
    var fact, fallback := trial.fact, turns[0];
    var mutated := Mutate(fact, turns);
    if mutated == None {
      return 0, None;
    }
    ghost var k :| Supports(fact, turns, k) && mutated.value == Grounded(fact, turns[k]);
    var found := FindSupportingTurn(fact, turns);
    assert !Unsupported(fact, turns) by {
      SupportIsUnique(fact, turns, k, k);
    }
    ghost var j :| Supports(fact, turns, j) && found.value == turns[j];
    SupportIsUnique(fact, turns, j, k);
    VerdictOf(trial, turns, k);
    var supporting := if found.Some? then found.value else fallback;
    grounded := 1;
    kept := trial.evaluate(mutated.value, supporting);
  }

  lemma {:induction false} VerdictOf(trial: Trial, turns: seq<Turn>, k: int)
    requires Supports(trial.fact, turns, k)
    ensures Verdict(trial, turns) == trial.evaluate(Grounded(trial.fact, turns[k]), turns[k])
  {}

  ghost function Verdicts(trials: seq<Trial>, turns: seq<Turn>): seq<MemoryRecord> {
    if trials == [] then []
    else
      var last := Verdict(trials[|trials|-1], turns);
      Verdicts(trials[..|trials|-1], turns) + if last.Some? then [last.value] else []
  }

  ghost function GroundedCount(trials: seq<Trial>, turns: seq<Turn>): nat {
    if trials == [] then 0
    else GroundedCount(trials[..|trials|-1], turns) + if Unsupported(trials[|trials|-1].fact, turns) then 0 else 1
  }

  lemma {:induction false} GroundedAtMost(trials: seq<Trial>, turns: seq<Turn>)
    ensures GroundedCount(trials, turns) <= |trials|
  {
    if trials != [] {
      GroundedAtMost(trials[..|trials|-1], turns);
    }
  }

  /** The facts of one query: each grounded one is either kept or retracted. */
  method ReflectQuery(trials: seq<Trial>, turns: seq<Turn>)
    returns (grounded: nat, retracted: nat, records: seq<MemoryRecord>)
    requires turns != []
    ensures grounded == GroundedCount(trials, turns) && |records| + retracted == grounded
    ensures records == Verdicts(trials, turns)
  {
    grounded, retracted, records := 0, 0, [];
    for i := 0 to |trials|
      invariant grounded == GroundedCount(trials[..i], turns) && |records| + retracted == grounded
      invariant records == Verdicts(trials[..i], turns)
    {
      assert trials[..i+1][..i] == trials[..i];
      var one, kept := ReflectFact(trials[i], turns);
      grounded := grounded + one;
      if kept.Some? {
        records := records + [kept.value];
      } else if one == 1 {
        retracted := retracted + 1;
      }
    }
    assert trials[..|trials|] == trials;
  }

  ghost function AllVerdicts(probes: seq<Probe>): seq<MemoryRecord> {
    if probes == [] then []
    else
      var last := probes[|probes|-1];
      AllVerdicts(probes[..|probes|-1]) + if last.turns == [] then [] else Verdicts(last.trials, last.turns)
  }

  function Extracted(probes: seq<Probe>): nat {
    if probes == [] then 0
    else
      var last := probes[|probes|-1];
      Extracted(probes[..|probes|-1]) + if last.turns == [] then 0 else |last.trials|
  }

  ghost function GroundedIn(probes: seq<Probe>): nat {
    if probes == [] then 0
    else
      var last := probes[|probes|-1];
      GroundedIn(probes[..|probes|-1]) + if last.turns == [] then 0 else GroundedCount(last.trials, last.turns)
  }

  /** The counters add up; the kept records are those of the supported facts that evaluation keeps, in order. */
  method Reflect(probes: seq<Probe>) returns (report: ReflectionReport)
    ensures report.queriesReflected == |probes|
    ensures report.factsExtracted == Extracted(probes) && report.factsGrounded == GroundedIn(probes)
    ensures report.factsKept + report.factsRetracted == report.factsGrounded <= report.factsExtracted
    ensures |report.keptRecords| == report.factsKept && report.keptRecords == AllVerdicts(probes)
  {
    var extracted, grounded, kept, retracted: nat, records: seq<MemoryRecord> := 0, 0, 0, 0, [];
    for i := 0 to |probes|
      invariant extracted == Extracted(probes[..i]) && grounded == GroundedIn(probes[..i])
      invariant kept + retracted == grounded <= extracted && |records| == kept
      invariant records == AllVerdicts(probes[..i])
    {
      assert probes[..i+1][..i] == probes[..i];
      if probes[i].turns == [] {
        continue;
      }
      GroundedAtMost(probes[i].trials, probes[i].turns);
      extracted := extracted + |probes[i].trials|;
      var g, r, more := ReflectQuery(probes[i].trials, probes[i].turns);
      grounded, retracted, kept, records := grounded + g, retracted + r, kept + |more|, records + more;
    }
    assert probes[..|probes|] == probes;
    report := ReflectionReport(|probes|, extracted, grounded, kept, retracted, records);
  }
}
