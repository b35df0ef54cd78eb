/** Small shared vocabulary: optional values, hash functions, and facts about sequences and sets. */
module Basics {

  datatype Option<+T> = None | Some(value: T)

  /** A hash function with its truncation; where a proof needs it, it is injective on the texts it is given. */
  type Hash = string -> string

  ghost predicate Injective(hash: Hash) {
    forall a, b :: hash(a) == hash(b) ==> a == b
  }

  function Min(a: int, b: int): int { if a < b then a else b }

  function Max(a: int, b: int): int { if a < b then b else a }

  /** rows[:k] for any integer k. */
  function TopK<T>(rows: seq<T>, k: int): seq<T> {
    if k >= 0 then rows[..Min(k, |rows|)] else rows[..Max(0, |rows| + k)]
  }

  lemma {:induction false} Associates<T>(a: seq<T>, b: seq<T>, c: seq<T>)
    ensures a + (b + c) == (a + b) + c
  {}

  lemma {:induction false} SubsetCount<T>(a: set<T>, b: set<T>)
    requires a <= b
    ensures |a| <= |b| && (|a| == |b| <==> a == b)
  {
    assert b == a + (b - a) && |b| == |a| + |b - a|;
    assert |b - a| == 0 <==> b - a == {};
  }

  /** No element occurs twice. */
  ghost predicate Distinct<T>(s: seq<T>) {
    forall i, j :: 0 <= i < j < |s| ==> s[i] != s[j]
  }

  lemma {:induction false} OccursOnce<T>(s: seq<T>, x: T)
    requires Distinct(s)
    ensures multiset(s)[x] <= 1
  {
    if s != [] {
      var front, last := s[..|s|-1], s[|s|-1];
      OccursOnce(front, x);
      assert s == front + [last];
      assert last !in front;
    }
  }
}
