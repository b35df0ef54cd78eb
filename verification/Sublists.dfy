/** Lists of positions, and the elements of a list that a test accepts, in their order. */
module Sublists {

  predicate Increasing(p: seq<int>) { forall i, j :: 0 <= i < j < |p| ==> p[i] < p[j] }

  ghost predicate Holds(p: seq<int>, k: int) { exists i :: 0 <= i < |p| && p[i] == k }

  ghost predicate AllHeld(p: seq<int>, q: seq<int>) { forall i :: 0 <= i < |p| ==> Holds(q, p[i]) }

  lemma {:induction false} LastIsGreatest(p: seq<int>, q: seq<int>)
    requires Increasing(q) && AllHeld(p, q) && p != []
    ensures q != [] && p[|p|-1] <= q[|q|-1]
  {
    assert Holds(q, p[|p|-1]);
  }

  lemma {:induction false} FrontIsHeld(p: seq<int>, q: seq<int>)
    requires Increasing(p) && AllHeld(p, q) && p != [] && q != [] && p[|p|-1] == q[|q|-1]
    ensures AllHeld(p[..|p|-1], q[..|q|-1])
  {
    var a, b := p[..|p|-1], q[..|q|-1];
    forall i | 0 <= i < |a| ensures Holds(b, a[i]) {
      assert Holds(q, p[i]);
      var j :| 0 <= j < |q| && q[j] == p[i];
      assert b[j] == a[i];
    }
  }

  /** An increasing list is told by its elements. */
  lemma {:induction false} OneIncreasingList(p: seq<int>, q: seq<int>)
    requires Increasing(p) && Increasing(q) && AllHeld(p, q) && AllHeld(q, p)
    ensures p == q
  {
    if p != [] {
      LastIsGreatest(p, q);
      LastIsGreatest(q, p);
      FrontIsHeld(p, q);
      FrontIsHeld(q, p);
      OneIncreasingList(p[..|p|-1], q[..|q|-1]);
      assert p == p[..|p|-1] + [p[|p|-1]] && q == q[..|q|-1] + [q[|q|-1]];
    } else if q != [] {
      LastIsGreatest(q, p);
    }
  }

  /** r stands at the positions p of s, which are all the positions that keep accepts. */
  ghost predicate PicksAt<T>(s: seq<T>, keep: T -> bool, r: seq<T>, p: seq<int>) {
    |p| == |r| && Increasing(p)
    && (forall k :: 0 <= k < |p| ==> 0 <= p[k] < |s| && r[k] == s[p[k]] && keep(r[k]))
    && forall j :: 0 <= j < |s| && keep(s[j]) ==> Holds(p, j)
  }

  /** r consists of the elements of s that keep accepts, in their order. */
  ghost predicate Picks<T>(s: seq<T>, keep: T -> bool, r: seq<T>) { exists p :: PicksAt(s, keep, r, p) }

  function Filter<T>(s: seq<T>, keep: T -> bool): seq<T> {
    if s == [] then []
    else
      var front, last := Filter(s[..|s|-1], keep), s[|s|-1];
      if keep(last) then front + [last] else front
  }

  lemma {:induction false} PickNext<T>(s: seq<T>, keep: T -> bool, r: seq<T>, p: seq<int>, x: T)
    requires PicksAt(s, keep, r, p)
    ensures if keep(x) then PicksAt(s + [x], keep, r + [x], p + [|s|]) else PicksAt(s + [x], keep, r, p)
  {
    var p' := if keep(x) then p + [|s|] else p;
    assert forall k :: 0 <= k < |p| ==> p'[k] == p[k];
    forall j | 0 <= j < |s + [x]| && keep((s + [x])[j]) ensures Holds(p', j) {
      if j < |s| {
        assert Holds(p, j);
      } else {
        assert p'[|p|] == j;
      }
    }
  }

  lemma {:induction false} FilterPicks<T>(s: seq<T>, keep: T -> bool)
    ensures Picks(s, keep, Filter(s, keep))
  {
    if s == [] {
      assert PicksAt(s, keep, [], []);
    } else {
      var n := |s| - 1;
      FilterPicks(s[..n], keep);
      var p :| PicksAt(s[..n], keep, Filter(s[..n], keep), p);
      PickNext(s[..n], keep, Filter(s[..n], keep), p, s[n]);
      assert s[..n] + [s[n]] == s;
    }
  }

  lemma {:induction false} HeldByOther<T>(s: seq<T>, keep: T -> bool, r: seq<T>, p: seq<int>, q: seq<int>, r': seq<T>)
    requires PicksAt(s, keep, r, p) && PicksAt(s, keep, r', q)
    ensures AllHeld(p, q)
  {}

  /** There is one such list. */
  lemma {:induction false} PicksOnce<T>(s: seq<T>, keep: T -> bool, r: seq<T>)
    requires Picks(s, keep, r)
    ensures r == Filter(s, keep)
  {
    FilterPicks(s, keep);
    var p :| PicksAt(s, keep, r, p);
    var q :| PicksAt(s, keep, Filter(s, keep), q);
    HeldByOther(s, keep, r, p, q, Filter(s, keep));
    HeldByOther(s, keep, Filter(s, keep), q, p, r);
    OneIncreasingList(p, q);
  }

  lemma {:induction false} FilterSplits<T>(a: seq<T>, b: seq<T>, keep: T -> bool)
    ensures Filter(a + b, keep) == Filter(a, keep) + Filter(b, keep)
  {
    if b == [] {
      assert a + b == a;
    } else {
      var n := |b| - 1;
      FilterSplits(a, b[..n], keep);
      assert (a + b)[..|a + b| - 1] == a + b[..n];
    }
  }
}
