/**
 Benchmark runs that can be stopped and resumed (arena/benchmark_runner.py): a resumed
 run skips the queries whose results the output file holds already, and appends one line
 for each of the others, in whatever order they finish and wherever the run is stopped.
 */
module ResumableRun {
  import opened Basics
  import opened Sublists

  /** A line of the output file: the result of a query, failed ones included, or something that cannot be read. */
  datatype Line = Result(id: string, article: string) | Unreadable

  function Ids(lines: seq<Line>): seq<string> {
    if lines == [] then []
    else
      var last := lines[|lines|-1];
      if last.Result? then Ids(lines[..|lines|-1]) + [last.id] else Ids(lines[..|lines|-1])
  }

  function Pending(queries: seq<string>, done: seq<string>): seq<string> {
    if queries == [] then []
    else
      var last := queries[|queries|-1];
      if last in done then Pending(queries[..|queries|-1], done) else Pending(queries[..|queries|-1], done) + [last]
  }

  /** What a run appends: results of pending queries, in the order they finish, up to where it is stopped. */
  ghost predicate Possible(pending: seq<string>, finished: seq<Line>) {
    (forall l <- finished :: l.Result?) && multiset(Ids(finished)) <= multiset(pending)
  }

  ghost predicate Complete(pending: seq<string>, finished: seq<Line>) {
    Possible(pending, finished) && multiset(Ids(finished)) == multiset(pending)
  }

  class OutputFile {
    var lines: seq<Line>

    constructor (lines: seq<Line>)
      ensures this.lines == lines
    {
      this.lines := lines;
    }

    method LoadDoneIds() returns (done: set<string>)
      ensures forall id :: id in done <==> id in Ids(lines)
    {
      done := {};
      for i := 0 to |lines|
        invariant forall id :: id in done <==> id in Ids(lines[..i])
      {
        assert lines[..i+1][..i] == lines[..i];
        if lines[i].Result? {
          done := done + {lines[i].id};
        }
      }
      assert lines[..|lines|] == lines;
    }

    method AppendResult(result: Line)
      modifies this
      ensures lines == old(lines) + [result]
    {
      lines := lines + [result];
    }

    /** The queries a run still has to do. */
    method PendingQueries(queries: seq<string>, resume: bool) returns (pending: seq<string>)
      ensures pending == Pending(queries, if resume then Ids(lines) else [])
    {
      var done: set<string> := {};
      if resume {
        done := LoadDoneIds();
      }
      pending := [];
      for i := 0 to |queries|
        invariant pending == Pending(queries[..i], if resume then Ids(lines) else [])
      {
        assert queries[..i+1][..i] == queries[..i];
        if queries[i] !in done {
          pending := pending + [queries[i]];
        }
      }
      assert queries[..|queries|] == queries;
    }

    /** One run: the pending queries finish in some order, and the run may stop after any of them. */
    method Run(queries: seq<string>, resume: bool, finished: seq<Line>) returns (pending: seq<string>)
      requires Possible(Pending(queries, if resume then Ids(lines) else []), finished)
      modifies this
      ensures pending == Pending(queries, if resume then Ids(old(lines)) else []) && Possible(pending, finished)
      ensures lines == old(lines) + finished
    {
      pending := PendingQueries(queries, resume);
      AppendResults(finished);
    }

    method AppendResults(finished: seq<Line>)
      modifies this
      ensures lines == old(lines) + finished
    {
      for i := 0 to |finished|
        invariant lines == old(lines) + finished[..i]
      {
        AppendResult(finished[i]);
      }
    }
  }

  // ---------------------------------------------------------------------
  // Sequences of runs
  // ---------------------------------------------------------------------

  /** The file after resumed runs with these results, one list a run. */
  function After(start: seq<Line>, runs: seq<seq<Line>>): seq<Line> {
    if runs == [] then start else After(start, runs[..|runs|-1]) + runs[|runs|-1]
  }

  ghost predicate Resumed(queries: seq<string>, start: seq<Line>, runs: seq<seq<Line>>) {
    runs != [] ==>
      Resumed(queries, start, runs[..|runs|-1])
      && Possible(Pending(queries, Ids(After(start, runs[..|runs|-1]))), runs[|runs|-1])
  }

  lemma {:induction false} IdsOfBoth(a: seq<Line>, b: seq<Line>)
    ensures Ids(a + b) == Ids(a) + Ids(b)
  {
    if b == [] {
      assert a + b == a;
    } else {
      var front := b[..|b|-1];
      IdsOfBoth(a, front);
      assert (a + b)[..|a + b|-1] == a + front;
    }
  }

  lemma {:induction false} PendingAreNotDone(queries: seq<string>, done: seq<string>)
    ensures forall id :: id in Pending(queries, done) <==> id in queries && id !in done
    ensures Distinct(queries) ==> Distinct(Pending(queries, done))
  {
    if queries != [] {
      PendingAreNotDone(queries[..|queries|-1], done);
      assert queries == queries[..|queries|-1] + [queries[|queries|-1]];
    }
  }

  lemma {:induction false} OnceIsDistinct(s: seq<string>)
    requires forall x :: multiset(s)[x] <= 1
    ensures Distinct(s)
  {
    forall i, j | 0 <= i < j < |s| ensures s[i] != s[j] {
      assert s == s[..i] + [s[i]] + s[i+1..j] + [s[j]] + s[j+1..];
      assert multiset(s)[s[j]] <= 1;
    }
  }

  lemma {:induction false} FinishedAreDistinct(pending: seq<string>, finished: seq<Line>)
    requires Distinct(pending) && Possible(pending, finished)
    ensures Distinct(Ids(finished)) && forall id <- Ids(finished) :: id in pending
  {
    var ids := Ids(finished);
    forall x ensures multiset(ids)[x] <= 1 {
      OccursOnce(pending, x);
    }
    OnceIsDistinct(ids);
    forall id | id in ids ensures id in pending {
      assert id in multiset(ids);
    }
  }

  lemma {:induction false} JoinDistinct(a: seq<string>, b: seq<string>)
    ensures Distinct(a + b) <==> Distinct(a) && Distinct(b) && forall x <- b :: x !in a
  {
    var c := a + b;
    assert forall i :: 0 <= i < |a| ==> c[i] == a[i];
    assert forall j :: 0 <= j < |b| ==> c[|a| + j] == b[j];
    if Distinct(c) {
      forall x | x in b ensures x !in a {
        var j :| 0 <= j < |b| && b[j] == x;
        assert c[|a| + j] == x;
      }
    }
    if Distinct(a) && Distinct(b) && forall x <- b :: x !in a {
      forall i, j | 0 <= i < j < |c| ensures c[i] != c[j] {
        if j >= |a| {
          assert c[j] == b[j - |a|] && b[j - |a|] in b;
          if i >= |a| {
            assert c[i] == b[i - |a|];
          } else {
            assert c[i] in a;
          }
        }
      }
    }
  }

  /** However often runs are stopped and resumed, no id is written twice. */
  lemma {:induction false} NoIdTwice(queries: seq<string>, start: seq<Line>, runs: seq<seq<Line>>)
    requires Distinct(queries) && Distinct(Ids(start)) && Resumed(queries, start, runs)
    ensures Distinct(Ids(After(start, runs)))
    ensures forall id :: id in Ids(After(start, runs)) ==> id in Ids(start) || id in queries
  {
    if runs != [] {
      var front, last := runs[..|runs|-1], runs[|runs|-1];
      NoIdTwice(queries, start, front);
      var before := After(start, front);
      var pending := Pending(queries, Ids(before));
      PendingAreNotDone(queries, Ids(before));
      FinishedAreDistinct(pending, last);
      IdsOfBoth(before, last);
      JoinDistinct(Ids(before), Ids(last));
    }
  }

  /** When the last run completes, every query is written exactly once, and so it stays. */
  lemma {:induction false} CompletedRunWritesAll(queries: seq<string>, start: seq<Line>, runs: seq<seq<Line>>)
    requires Distinct(queries) && Distinct(Ids(start)) && Resumed(queries, start, runs) && runs != []
    requires Complete(Pending(queries, Ids(After(start, runs[..|runs|-1]))), runs[|runs|-1])
    ensures forall q <- queries :: multiset(Ids(After(start, runs)))[q] == 1
    ensures Pending(queries, Ids(After(start, runs))) == []
  {
    var front, last := runs[..|runs|-1], runs[|runs|-1];
    NoIdTwice(queries, start, runs);
    IdsOfBoth(After(start, front), last);
    forall q | q in queries ensures multiset(Ids(After(start, runs)))[q] == 1 {
      WrittenOnce(queries, Ids(After(start, front)), Ids(last), q);
    }
    AllDoneLeavesNothing(queries, Ids(After(start, runs)));
  }

  lemma {:induction false} WrittenOnce(queries: seq<string>, before: seq<string>, ids: seq<string>, q: string)
    requires q in queries && multiset(ids) == multiset(Pending(queries, before)) && Distinct(before + ids)
    ensures multiset(before + ids)[q] == 1
  {
    PendingAreNotDone(queries, before);
    if q !in before {
      assert q in multiset(Pending(queries, before));
      assert q in multiset(ids);
    }
    assert q in before + ids;
    assert q in multiset(before + ids);
    OccursOnce(before + ids, q);
  }

  lemma {:induction false} AllDoneLeavesNothing(queries: seq<string>, done: seq<string>)
    requires forall q <- queries :: multiset(done)[q] == 1
    ensures Pending(queries, done) == []
  {
    if queries != [] {
      var front, last := queries[..|queries|-1], queries[|queries|-1];
      assert last in queries && forall q <- front :: q in queries;
      AllDoneLeavesNothing(front, done);
      assert last in multiset(done);
    }
  }

  /** Every run that is stopped leaves exactly the rest for the next one. */
  lemma {:induction false} NothingIsLost(queries: seq<string>, lines: seq<Line>, finished: seq<Line>, q: string)
    requires Possible(Pending(queries, Ids(lines)), finished)
    ensures q in Pending(queries, Ids(lines)) <==> q in Ids(finished) || q in Pending(queries, Ids(lines + finished))
    ensures !(q in Ids(finished) && q in Pending(queries, Ids(lines + finished)))
  {
    IdsOfBoth(lines, finished);
    PendingAreNotDone(queries, Ids(lines));
    PendingAreNotDone(queries, Ids(lines + finished));
    if q in Ids(finished) {
      assert q in multiset(Ids(finished));
      assert q in multiset(Pending(queries, Ids(lines)));
    }
  }

  /** A complete run that does not resume repeats ids exactly when one is there already, or two queries share one. */
  lemma {:induction false} FreshRunMayRepeat(queries: seq<string>, start: seq<Line>, finished: seq<Line>)
    requires Distinct(Ids(start)) && Complete(Pending(queries, []), finished)
    ensures Distinct(Ids(start + finished)) <==> Distinct(queries) && forall q <- queries :: q !in Ids(start)
  {
    EverythingIsPending(queries);
    IdsOfBoth(start, finished);
    JoinDistinct(Ids(start), Ids(finished));
    assert forall x :: x in Ids(finished) <==> x in multiset(Ids(finished));
    assert forall x :: x in queries <==> x in multiset(queries);
    SameDistinct(queries, Ids(finished));
    SameDistinct(Ids(finished), queries);
  }

  lemma {:induction false} EverythingIsPending(queries: seq<string>)
    ensures Pending(queries, []) == queries
  {
    if queries != [] {
      EverythingIsPending(queries[..|queries|-1]);
      assert queries == queries[..|queries|-1] + [queries[|queries|-1]];
    }
  }

  lemma {:induction false} SameDistinct(a: seq<string>, b: seq<string>)
    requires multiset(a) == multiset(b)
    ensures Distinct(a) ==> Distinct(b)
  {
    if Distinct(a) {
      forall x ensures multiset(b)[x] <= 1 {
        OccursOnce(a, x);
      }
      OnceIsDistinct(b);
    }
  }

  // ---------------------------------------------------------------------
  // What is done and what is pending
  // ---------------------------------------------------------------------

  predicate Readable(l: Line) { l.Result? }

  /** The ids are those of the readable lines, in order. */
  lemma {:induction false} IdsAreOfReadableLines(lines: seq<Line>)
    ensures exists readable: seq<Line> ::
              Picks(lines, Readable, readable) && |readable| == |Ids(lines)|
              && forall i :: 0 <= i < |readable| ==> readable[i].Result? && Ids(lines)[i] == readable[i].id
  {
    FilterPicks(lines, Readable);
    IdsFilter(lines);
  }

  lemma {:induction false} IdsFilter(lines: seq<Line>)
    ensures var readable := Filter(lines, Readable);
            |readable| == |Ids(lines)|
            && forall i :: 0 <= i < |readable| ==> readable[i].Result? && Ids(lines)[i] == readable[i].id
  {
    if lines != [] {
      IdsFilter(lines[..|lines|-1]);
    }
  }

  function NotIn(done: seq<string>): string -> bool { (q: string) => q !in done }

  /** Pending are the queries that are not done, in order. */
  lemma {:induction false} PendingAreTheOthers(queries: seq<string>, done: seq<string>)
    ensures Picks(queries, NotIn(done), Pending(queries, done))
  {
    FilterPicks(queries, NotIn(done));
    PendingFilters(queries, done);
  }

  lemma {:induction false} PendingFilters(queries: seq<string>, done: seq<string>)
    ensures Pending(queries, done) == Filter(queries, NotIn(done))
  {
    if queries != [] {
      PendingFilters(queries[..|queries|-1], done);
    }
  }
}
