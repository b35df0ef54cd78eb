/**
 Percentiles by linear interpolation (scripts/run_locomo_bench.py): the samples are
 sorted, and between two neighbouring ranks a percentile moves along the line that joins
 the samples there. It rises with p, and meets every sample at the sample's own rank.
 */
module Percentile {
  import opened Basics

  function Insert(x: real, s: seq<real>): (r: seq<real>)
    ensures |r| == |s| + 1
  {
    if s == [] || x <= s[0] then [x] + s else [s[0]] + Insert(x, s[1..])
  }

  function Sorted(s: seq<real>): (r: seq<real>)
    ensures |r| == |s|
  {
    if s == [] then [] else Insert(s[|s|-1], Sorted(s[..|s|-1]))
  }

  predicate Ascending(s: seq<real>) { forall i, j :: 0 <= i < j < |s| ==> s[i] <= s[j] }

  lemma {:induction false} InsertKeepsOrder(x: real, s: seq<real>)
    requires Ascending(s)
    ensures Ascending(Insert(x, s))
    ensures s != [] && s[0] < x ==> Insert(x, s)[0] == s[0]
    ensures s == [] || x <= s[0] ==> Insert(x, s)[0] == x
  {
    if s != [] && x > s[0] {
      InsertKeepsOrder(x, s[1..]);
      var tail := Insert(x, s[1..]);
      assert tail[0] >= s[0];
      assert forall j :: 0 <= j < |tail| ==> tail[0] <= tail[j];
    }
  }

  lemma {:induction false} InsertKeepsSamples(x: real, s: seq<real>)
    ensures multiset(Insert(x, s)) == multiset(s) + multiset{x}
  {
    if s != [] && x > s[0] {
      InsertKeepsSamples(x, s[1..]);
      assert s == [s[0]] + s[1..];
    }
  }

  /** sorted(): ascending, and every sample as often as before. */
  lemma {:induction false} SortedSorts(s: seq<real>)
    ensures Ascending(Sorted(s)) && multiset(Sorted(s)) == multiset(s)
  {
    if s != [] {
      var front, x := s[..|s|-1], s[|s|-1];
      SortedSorts(front);
      InsertKeepsOrder(x, Sorted(front));
      InsertKeepsSamples(x, Sorted(front));
      assert s == front + [x];
    }
  }

  /** int(r) rounds toward zero. */
  function Truncate(r: real): int { if r >= 0.0 then r.Floor else -(-r).Floor }

  /** A list index may count from the end. */
  predicate Indexes(s: seq<real>, i: int) { -|s| <= i < |s| }

  function At(s: seq<real>, i: int): real
    requires Indexes(s, i)
  {
    if i >= 0 then s[i] else s[|s| + i]
  }

  function Blend(a: real, b: real, weight: real): real { a * (1.0 - weight) + b * weight }

  function Rank(n: nat, p: real): real { n as real * p }

  function Interpolate(ordered: seq<real>, rank: real): Option<real>
    requires |ordered| >= 2
  {
    var low := Truncate(rank);
    var high := if low + 1 < |ordered| - 1 then low + 1 else |ordered| - 1;
    if !Indexes(ordered, low) then None
    else if low == high then Some(At(ordered, low))
    else Some(Blend(At(ordered, low), At(ordered, high), rank - low as real))
  }

  /** No result when the index is out of range, which takes a p outside [0, 1]. */
  function Percentile(values: seq<real>, p: real): Option<real> {
    if values == [] then Some(0.0)
    else
      var ordered := Sorted(values);
      if |ordered| == 1 then Some(ordered[0]) else Interpolate(ordered, Rank(|ordered| - 1, p))
  }

  /** The point of the broken line through the ordered values. */
  function OnLine(ordered: seq<real>, rank: real): real
    requires ordered != [] && 0.0 <= rank <= (|ordered| - 1) as real
  {
    var low := rank.Floor;
    if low == |ordered| - 1 then ordered[low] else Blend(ordered[low], ordered[low+1], rank - low as real)
  }

  lemma {:induction false} Product(a: real, b: real)
    requires a >= 0.0 && b >= 0.0
    ensures a * b >= 0.0
  {}

  lemma {:induction false} RankRises(n: nat, p: real, q: real)
    requires 0.0 <= p <= q <= 1.0
    ensures 0.0 <= Rank(n, p) <= Rank(n, q) <= n as real
  {}

  lemma {:induction false} InterpolatedIsOnLine(s: seq<real>, rank: real)
    requires |s| >= 2 && 0.0 <= rank <= (|s| - 1) as real
    ensures Interpolate(s, rank) == Some(OnLine(s, rank))
  {}

  lemma {:induction false} PercentileIsOnLine(values: seq<real>, p: real)
    requires values != [] && 0.0 <= p <= 1.0
    ensures 0.0 <= Rank(|values| - 1, p) <= (|values| - 1) as real
    ensures Percentile(values, p) == Some(OnLine(Sorted(values), Rank(|values| - 1, p)))
  {
    RankRises(|values| - 1, p, p);
    if |values| >= 2 {
      InterpolatedIsOnLine(Sorted(values), Rank(|values| - 1, p));
    }
  }

  lemma {:induction false} BlendIsLinear(a: real, b: real, w: real)
    ensures Blend(a, b, w) == a + (b - a) * w
  {
    assert a * (1.0 - w) == a - a * w;
    assert (b - a) * w == b * w - a * w;
  }

  lemma {:induction false} BlendLiesBetween(a: real, b: real, v: real, w: real)
    requires a <= b && 0.0 <= v <= w <= 1.0
    ensures a <= Blend(a, b, v) <= Blend(a, b, w) <= b
  {
    var d := b - a;
    BlendIsLinear(a, b, v);
    BlendIsLinear(a, b, w);
    Product(d, v);
    Product(d, w - v);
    Product(d, 1.0 - w);
    assert d * (w - v) == d * w - d * v;
    assert d * (1.0 - w) == d - d * w;
  }

  lemma {:induction false} LineRises(s: seq<real>, r: real, t: real)
    requires Ascending(s) && s != [] && 0.0 <= r <= t <= (|s| - 1) as real
    ensures s[0] <= OnLine(s, r) <= OnLine(s, t) <= s[|s|-1]
  {
    StaysInItsSegment(s, r);
    StaysInItsSegment(s, t);
    if r.Floor == t.Floor && r.Floor < |s| - 1 {
      var low := r.Floor;
      BlendLiesBetween(s[low], s[low+1], r - low as real, t - low as real);
    }
  }

  lemma {:induction false} StaysInItsSegment(s: seq<real>, r: real)
    requires Ascending(s) && s != [] && 0.0 <= r <= (|s| - 1) as real
    ensures var low := r.Floor;
            0 <= low < |s| && s[low] <= OnLine(s, r) <= (if low + 1 < |s| then s[low+1] else s[low])
  {
    var low := r.Floor;
    if low + 1 < |s| {
      var w := r - low as real;
      BlendLiesBetween(s[low], s[low+1], w, w);
    }
  }

  /** Percentiles rise with p, from the least value at 0 to the greatest at 1. */
  lemma {:induction false} PercentileRises(values: seq<real>, p: real, q: real)
    requires values != [] && 0.0 <= p <= q <= 1.0
    ensures Percentile(values, p).Some? && Percentile(values, q).Some?
    ensures Sorted(values)[0] <= Percentile(values, p).value <= Percentile(values, q).value
    ensures Percentile(values, q).value <= Sorted(values)[|values|-1]
  {
    var n := |values| - 1;
    RankRises(n, p, q);
    PercentileIsOnLine(values, p);
    PercentileIsOnLine(values, q);
    SortedSorts(values);
    LineRises(Sorted(values), Rank(n, p), Rank(n, q));
  }

  /** A percentile that falls on a sample is that sample; 0 and 1 give the extremes. */
  lemma {:induction false} SamplesAreHit(values: seq<real>, k: nat, p: real)
    requires k < |values| && 0.0 <= p <= 1.0 && Rank(|values| - 1, p) == k as real
    ensures Percentile(values, p) == Some(Sorted(values)[k])
  {
    PercentileIsOnLine(values, p);
    assert (k as real).Floor == k;
  }

  /** The straight line through the k-th sample and the next one. */
  function Straight(s: seq<real>, k: nat, rank: real): real
    requires k + 1 < |s|
  {
    s[k] + (s[k+1] - s[k]) * (rank - k as real)
  }

  lemma {:induction false} LineJoinsNeighbours(s: seq<real>, k: nat, rank: real)
    requires k + 1 < |s| && k as real <= rank <= (k + 1) as real
    ensures OnLine(s, rank) == Straight(s, k, rank)
  {
    if rank == (k + 1) as real {
      assert rank.Floor == k + 1;
      if k + 2 < |s| {
        BlendIsLinear(s[k+1], s[k+2], 0.0);
      }
    } else {
      assert rank.Floor == k;
      BlendIsLinear(s[k], s[k+1], rank - k as real);
    }
  }

  /** Between two neighbouring samples, ends included, the percentile moves along the straight line that joins them. */
  lemma {:induction false} PercentileJoinsNeighbours(values: seq<real>, k: nat, p: real)
    requires k + 1 < |values| && 0.0 <= p <= 1.0 && k as real <= Rank(|values| - 1, p) <= (k + 1) as real
    ensures Percentile(values, p) == Some(Straight(Sorted(values), k, Rank(|values| - 1, p)))
  {
    PercentileIsOnLine(values, p);
    LineJoinsNeighbours(Sorted(values), k, Rank(|values| - 1, p));
  }
}
