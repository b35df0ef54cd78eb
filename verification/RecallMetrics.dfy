/**
 Retrieval metrics of the benchmark script (scripts/run_locomo_bench.py): recall, nDCG and
 precision of the first k ranks. A rank counts when it holds a gold anchor for the first
 time; the discount of later ranks is any positive decreasing function.
 */
module RecallMetrics {
  import opened Basics

  /** The position discount 1 / log2(i + 1): only its sign and its strict decrease matter. */
  type Gain = nat -> real

  ghost predicate Discounts(gain: Gain) {
    (forall i: nat :: gain(i) > 0.0) && forall i: nat, j: nat :: i < j ==> gain(i) > gain(j)
  }

  function SetOf(s: seq<string>): set<string> { set a | a in s }

  /** The gold anchors that were retrieved. */
  function Found(ranked: seq<string>, gold: set<string>): set<string> { set a | a in ranked && a in gold }

  /** Rank j (from 0) holds a gold anchor for the first time. */
  predicate FreshHit(ranked: seq<string>, gold: set<string>, j: nat)
    requires j < |ranked|
  {
    ranked[j] in gold && ranked[j] !in ranked[..j]
  }

  /** The positions, from 1, of the fresh hits. */
  function FirstHits(ranked: seq<string>, gold: set<string>): seq<nat> {
    if ranked == [] then []
    else
      var n := |ranked| - 1;
      FirstHits(ranked[..n], gold) + if FreshHit(ranked, gold, n) then [n + 1] else []
  }

  function Dcg(gain: Gain, hits: seq<nat>): real {
    if hits == [] then 0.0 else Dcg(gain, hits[..|hits|-1]) + gain(hits[|hits|-1])
  }

  /** The positions 1 to m. */
  function Ideal(m: nat): (hits: seq<nat>)
    ensures |hits| == m && forall i :: 0 <= i < m ==> hits[i] == i + 1
  {
    if m == 0 then [] else Ideal(m - 1) + [m]
  }

  // ---------------------------------------------------------------------
  // Hits
  // ---------------------------------------------------------------------

  /** Every listed position is a fresh hit; the i-th one is not before rank i. */
  lemma {:induction false} HitsAreFresh(ranked: seq<string>, gold: set<string>)
    ensures var hits := FirstHits(ranked, gold);
            |hits| <= |ranked|
            && (forall i :: 0 <= i < |hits| ==> i + 1 <= hits[i] <= |ranked| && FreshHit(ranked, gold, hits[i] - 1))
    ensures |FirstHits(ranked, gold)| == |Found(ranked, gold)|
  {
    if ranked != [] {
      var n := |ranked| - 1;
      var front, a := ranked[..n], ranked[n];
      HitsAreFresh(front, gold);
      assert ranked == front + [a];
      assert forall j :: 0 <= j < n ==> front[..j] == ranked[..j];
      if FreshHit(ranked, gold, n) {
        assert Found(ranked, gold) == Found(front, gold) + {a};
      } else {
        assert Found(ranked, gold) == Found(front, gold);
      }
    }
  }

  predicate IsIncreasing(hits: seq<nat>) { forall i, j :: 0 <= i < j < |hits| ==> hits[i] < hits[j] }

  predicate Lists(hits: seq<nat>, position: nat) { exists i :: 0 <= i < |hits| && hits[i] == position }

  /** The positions are listed in increasing order, and a rank is listed exactly when it is a fresh hit. */
  lemma {:induction false} FreshHitsAreListed(ranked: seq<string>, gold: set<string>, j: nat)
    requires j < |ranked|
    ensures IsIncreasing(FirstHits(ranked, gold))
    ensures FreshHit(ranked, gold, j) <==> Lists(FirstHits(ranked, gold), j + 1)
  {
    var n := |ranked| - 1;
    var front, hits := ranked[..n], FirstHits(ranked, gold);
    HitsAreFresh(front, gold);
    HitsAreFresh(ranked, gold);
    if j < n {
      FreshHitsAreListed(front, gold, j);
      assert front[..j] == ranked[..j];
      assert forall i :: 0 <= i < |FirstHits(front, gold)| ==> hits[i] == FirstHits(front, gold)[i];
    } else {
      if n > 0 {
        FreshHitsAreListed(front, gold, 0);
      }
      assert FreshHit(ranked, gold, n) ==> hits[|hits|-1] == n + 1;
    }
  }

  /** When the first m ranks are all fresh hits, they are the first m listed positions. */
  lemma {:induction false} LeadingHits(ranked: seq<string>, gold: set<string>, m: nat)
    requires m <= |ranked| && forall j: nat :: j < m ==> FreshHit(ranked, gold, j)
    ensures m <= |FirstHits(ranked, gold)| && FirstHits(ranked, gold)[..m] == Ideal(m)
  {
    if m > 0 {
      var n := |ranked| - 1;
      var front := ranked[..n];
      forall j: nat | j < m && j < n ensures FreshHit(front, gold, j) {
        assert front[..j] == ranked[..j] && FreshHit(ranked, gold, j);
      }
      if m <= n {
        LeadingHits(front, gold, m);
      } else {
        LeadingHits(front, gold, n);
        HitsAreFresh(front, gold);
        assert FreshHit(ranked, gold, n);
        assert FirstHits(front, gold) == Ideal(n);
      }
    }
  }

  lemma {:induction false} FoundIsBounded(ranked: seq<string>, gold: set<string>)
    ensures |Found(ranked, gold)| <= |gold| && |Found(ranked, gold)| <= |ranked|
    ensures |Found(ranked, gold)| == |gold| <==> gold <= SetOf(ranked)
  {
    HitsAreFresh(ranked, gold);
    SubsetCount(Found(ranked, gold), gold);
    assert Found(ranked, gold) == gold <==> gold <= SetOf(ranked);
  }

  /** The first ranks, as many as gold anchors fit into the top k, are all fresh hits. */
  ghost predicate Perfect(ranked: seq<string>, gold: set<string>, k: int) {
    Min(|gold|, k) <= |ranked| && forall j: nat :: j < Min(|gold|, k) ==> FreshHit(ranked, gold, j)
  }

  // ---------------------------------------------------------------------
  // Discounted gain
  // ---------------------------------------------------------------------

  /** No more hits, none of them earlier, gain no more, and as much only when they are the same. */
  lemma {:induction false} EarlierGainsMore(gain: Gain, late: seq<nat>, early: seq<nat>)
    requires Discounts(gain) && |late| <= |early| && forall i :: 0 <= i < |late| ==> early[i] <= late[i]
    ensures Dcg(gain, late) <= Dcg(gain, early)
    ensures Dcg(gain, late) == Dcg(gain, early) <==> late == early
    decreases |early|
  {
    if early != [] {
      var n := |early| - 1;
      assert early == early[..n] + [early[n]];
      if |late| == |early| {
        assert late == late[..n] + [late[n]];
        EarlierGainsMore(gain, late[..n], early[..n]);
        assert gain(late[n]) <= gain(early[n]);
      } else {
        EarlierGainsMore(gain, late, early[..n]);
        assert gain(early[n]) > 0.0;
      }
    }
  }

  lemma {:induction false} GainIsNotNegative(gain: Gain, hits: seq<nat>)
    requires Discounts(gain)
    ensures Dcg(gain, hits) >= 0.0 && (Dcg(gain, hits) == 0.0 <==> hits == [])
  {
    EarlierGainsMore(gain, [], hits);
  }

  lemma {:induction false} IdealIsBest(gain: Gain, ranked: seq<string>, gold: set<string>, k: nat)
    requires Discounts(gain) && |ranked| <= k
    ensures var hits, ideal := FirstHits(ranked, gold), Ideal(Min(|gold|, k));
            Dcg(gain, hits) <= Dcg(gain, ideal) && (Dcg(gain, hits) == Dcg(gain, ideal) <==> Perfect(ranked, gold, k))
  {
    var m, hits := Min(|gold|, k), FirstHits(ranked, gold);
    HitsAreFresh(ranked, gold);
    FoundIsBounded(ranked, gold);
    EarlierGainsMore(gain, hits, Ideal(m));
    if hits == Ideal(m) {
      forall j: nat | j < m ensures FreshHit(ranked, gold, j) {
        assert hits[j] == j + 1;
      }
    }
    if Perfect(ranked, gold, k) {
      LeadingHits(ranked, gold, m);
      assert hits[..m] == hits;
    }
  }

  lemma {:induction false} Ratio(x: real, y: real)
    requires 0.0 <= x <= y && y > 0.0
    ensures 0.0 <= x / y <= 1.0
    ensures x / y == 1.0 <==> x == y
    ensures x / y == 0.0 <==> x == 0.0
  {}

  // ---------------------------------------------------------------------
  // The metrics
  // ---------------------------------------------------------------------

  /** The part of gold that was retrieved; nothing when there is no gold. */
  function Recall(ranked: seq<string>, gold: set<string>): real {
    |Found(ranked, gold)| as real / Max(|gold|, 1) as real
  }

  /** The part of the ranks that retrieved something new from gold. */
  function Precision(ranked: seq<string>, gold: set<string>): real {
    |Found(ranked, gold)| as real / Max(|ranked|, 1) as real
  }

  /** The discounted gain, relative to the best possible one. */
  function Ndcg(gain: Gain, ranked: seq<string>, gold: set<string>, k: int): real {
    var best := Dcg(gain, Ideal(Max(0, Min(|gold|, k))));
    if best > 0.0 then Dcg(gain, FirstHits(ranked, gold)) / best else 0.0
  }

  lemma {:induction false} RecallMeansCoverage(ranked: seq<string>, gold: set<string>)
    ensures 0.0 <= Recall(ranked, gold) <= 1.0
    ensures Recall(ranked, gold) == 1.0 <==> gold != {} && gold <= SetOf(ranked)
    ensures Recall(ranked, gold) == 0.0 <==> SetOf(ranked) !! gold
  {
    FoundIsBounded(ranked, gold);
    NothingFound(ranked, gold);
    assert |gold| == 0 <==> gold == {};
    Ratio(|Found(ranked, gold)| as real, Max(|gold|, 1) as real);
  }

  lemma {:induction false} PrecisionMeansNoNoise(ranked: seq<string>, gold: set<string>)
    ensures 0.0 <= Precision(ranked, gold) <= 1.0
    ensures Precision(ranked, gold) == 1.0 <==> ranked != [] && Distinct(ranked) && SetOf(ranked) <= gold
    ensures Precision(ranked, gold) == 0.0 <==> SetOf(ranked) !! gold
  {
    FoundIsBounded(ranked, gold);
    NothingFound(ranked, gold);
    EveryRankFinds(ranked, gold);
    Ratio(|Found(ranked, gold)| as real, Max(|ranked|, 1) as real);
  }

  /** nDCG is 1 exactly for a perfect ranking, and 0 exactly when nothing was found or asked for. */
  lemma {:induction false} NdcgMeansPerfection(gain: Gain, anchors: seq<string>, gold: set<string>, k: int)
    requires Discounts(gain)
    ensures var ranked := TopK(anchors, k);
            0.0 <= Ndcg(gain, ranked, gold, k) <= 1.0
            && (Ndcg(gain, ranked, gold, k) == 1.0 <==> gold != {} && k >= 1 && Perfect(ranked, gold, k))
            && (Ndcg(gain, ranked, gold, k) == 0.0 <==> k < 1 || SetOf(ranked) !! gold)
  {
    var ranked := TopK(anchors, k);
    var hits, ideal := FirstHits(ranked, gold), Ideal(Max(0, Min(|gold|, k)));
    GainIsNotNegative(gain, hits);
    GainIsNotNegative(gain, ideal);
    HitsAreFresh(ranked, gold);
    NothingFound(ranked, gold);
    assert |gold| == 0 <==> gold == {};
    if ideal != [] {
      IdealIsBest(gain, ranked, gold, k);
      Ratio(Dcg(gain, hits), Dcg(gain, ideal));
    }
  }

  method RecallMetrics(anchors: seq<string>, evidence: seq<string>, topK: int, gain: Gain)
    returns (recallAtK: real, ndcgAtK: real, precisionAtK: real)
    requires Discounts(gain)
    ensures var gold, ranked := SetOf(evidence), TopK(anchors, topK);
            recallAtK == Recall(ranked, gold) && ndcgAtK == Ndcg(gain, ranked, gold, topK)
            && precisionAtK == Precision(ranked, gold)
  {
    var gold, ranked := SetOf(evidence), TopK(anchors, topK);
    if evidence == [] {
      NoGold(gain, ranked, gold);
      return 0.0, 0.0, 0.0;
    }
    var seen: set<string>, firstHits: seq<nat> := {}, [];
    for idx := 0 to |ranked|
      invariant seen == Found(ranked[..idx], gold) && firstHits == FirstHits(ranked[..idx], gold)
    {
      HitAt(ranked, gold, idx);
      var anchor := ranked[idx];
      if anchor in gold && anchor !in seen {
        seen := seen + {anchor};
        firstHits := firstHits + [idx + 1];
      }
    }
    assert ranked[..|ranked|] == ranked;
    var dcg := Sum(gain, firstHits);
    var idcg := Sum(gain, Ideal(Max(0, Min(|gold|, topK))));
    ndcgAtK := if idcg > 0.0 then dcg / idcg else 0.0;
    recallAtK := |seen| as real / Max(|gold|, 1) as real;
    precisionAtK := |seen| as real / Max(|ranked|, 1) as real;
  }

  lemma {:induction false} NoGold(gain: Gain, ranked: seq<string>, gold: set<string>)
    requires gold == {}
    ensures Recall(ranked, gold) == 0.0 && Precision(ranked, gold) == 0.0
    ensures forall k :: Ndcg(gain, ranked, gold, k) == 0.0
  {}

  method Sum(gain: Gain, hits: seq<nat>) returns (total: real)
    ensures total == Dcg(gain, hits)
  {
    total := 0.0;
    for i := 0 to |hits|
      invariant total == Dcg(gain, hits[..i])
    {
      assert hits[..i+1][..i] == hits[..i];
      total := total + gain(hits[i]);
    }
    assert hits[..|hits|] == hits;
  }

  lemma {:induction false} HitAt(ranked: seq<string>, gold: set<string>, n: nat)
    requires n < |ranked|
    ensures var next, fresh_ := ranked[..n+1], ranked[n] in gold && ranked[n] !in Found(ranked[..n], gold);
            Found(next, gold) == (if fresh_ then Found(ranked[..n], gold) + {ranked[n]} else Found(ranked[..n], gold))
            && FirstHits(next, gold)
               == (if fresh_ then FirstHits(ranked[..n], gold) + [n + 1] else FirstHits(ranked[..n], gold))
  {
    var next := ranked[..n+1];
    assert next[..n] == ranked[..n] && next == ranked[..n] + [ranked[n]];
  }

  lemma {:induction false} NothingFound(ranked: seq<string>, gold: set<string>)
    ensures |Found(ranked, gold)| == 0 <==> SetOf(ranked) !! gold
  {
    assert |Found(ranked, gold)| == 0 <==> Found(ranked, gold) == {};
    if SetOf(ranked) !! gold {
      assert forall a <- Found(ranked, gold) :: a in SetOf(ranked) * gold;
    } else {
      var a :| a in SetOf(ranked) && a in gold;
      assert a in Found(ranked, gold);
    }
  }

  /** As many gold anchors as ranks: every rank is a fresh hit. */
  lemma {:induction false} EveryRankFinds(ranked: seq<string>, gold: set<string>)
    ensures |Found(ranked, gold)| == |ranked| <==> Distinct(ranked) && SetOf(ranked) <= gold
  {
    HitsAreFresh(ranked, gold);
    if ranked != [] {
      var n := |ranked| - 1;
      var front, a := ranked[..n], ranked[n];
      EveryRankFinds(front, gold);
      HitsAreFresh(front, gold);
      assert ranked == front + [a];
      assert Distinct(ranked) <==> Distinct(front) && a !in front;
      assert SetOf(ranked) == SetOf(front) + {a};
    }
  }

  // ---------------------------------------------------------------------
  // One rank more
  // ---------------------------------------------------------------------

  /** What a further rank adds to the hits. */
  function NewHit(ranked: seq<string>, a: string, gold: set<string>): nat { if a in gold && a !in ranked then 1 else 0 }

  lemma {:induction false} FoundGrows(ranked: seq<string>, a: string, gold: set<string>)
    ensures |Found(ranked + [a], gold)| == |Found(ranked, gold)| + NewHit(ranked, a, gold)
  {
    var front := Found(ranked, gold);
    if NewHit(ranked, a, gold) == 1 {
      assert Found(ranked + [a], gold) == front + {a};
    } else {
      assert Found(ranked + [a], gold) == front;
    }
  }

  lemma {:induction false} QuotientOfSum(x: real, y: real, n: real)
    requires n > 0.0
    ensures (x + y) / n == x / n + y / n
  {}

  /** From nothing, every new gold anchor adds its equal share to recall, and nothing else changes it. */
  lemma {:induction false} RecallGrowsByShares(ranked: seq<string>, a: string, gold: set<string>)
    requires gold != {}
    ensures Recall([], gold) == 0.0
    ensures Recall(ranked + [a], gold)
            == Recall(ranked, gold) + NewHit(ranked, a, gold) as real / |gold| as real
  {
    assert |gold| > 0;
    assert Found([], gold) == {};
    FoundGrows(ranked, a, gold);
    QuotientOfSum(|Found(ranked, gold)| as real, NewHit(ranked, a, gold) as real, |gold| as real);
  }

  /** Precision is the mean, over the ranks, of what each one found anew. */
  lemma {:induction false} PrecisionIsTheMean(ranked: seq<string>, a: string, gold: set<string>)
    ensures Precision([], gold) == 0.0
    ensures Precision(ranked + [a], gold) * (|ranked| + 1) as real
            == Precision(ranked, gold) * |ranked| as real + NewHit(ranked, a, gold) as real
  {
    assert Found([], gold) == {};
    FoundGrows(ranked, a, gold);
    if ranked == [] {
      assert ranked + [a] == [a];
    }
    Restored(|Found(ranked, gold)| as real, Max(|ranked|, 1) as real);
    Restored(|Found(ranked + [a], gold)| as real, (|ranked| + 1) as real);
  }

  lemma {:induction false} Restored(x: real, n: real)
    requires n > 0.0
    ensures x / n * n == x
  {}

  function NewGain(gain: Gain, ranked: seq<string>, a: string, gold: set<string>): real {
    if NewHit(ranked, a, gold) == 1 then gain(|ranked| + 1) else 0.0
  }

  /** From nothing, a new gold anchor adds the gain of its rank, as a part of the best possible gain. */
  lemma {:induction false} NdcgGrowsByGains(gain: Gain, ranked: seq<string>, a: string, gold: set<string>, k: int,
                                            best: real)
    requires best == Dcg(gain, Ideal(Max(0, Min(|gold|, k)))) && best > 0.0
    ensures Ndcg(gain, [], gold, k) == 0.0
    ensures Ndcg(gain, ranked + [a], gold, k) == Ndcg(gain, ranked, gold, k) + NewGain(gain, ranked, a, gold) / best
  {
    NdcgIsThePart(gain, [], gold, k, best);
    NdcgIsThePart(gain, ranked, gold, k, best);
    NdcgIsThePart(gain, ranked + [a], gold, k, best);
    DcgGrows(gain, ranked, a, gold);
    QuotientOfSum(Dcg(gain, FirstHits(ranked, gold)), NewGain(gain, ranked, a, gold), best);
  }

  lemma {:induction false} NdcgIsThePart(gain: Gain, ranked: seq<string>, gold: set<string>, k: int, best: real)
    requires best == Dcg(gain, Ideal(Max(0, Min(|gold|, k)))) && best > 0.0
    ensures Ndcg(gain, ranked, gold, k) == Dcg(gain, FirstHits(ranked, gold)) / best
  {}

  lemma {:induction false} DcgGrows(gain: Gain, ranked: seq<string>, a: string, gold: set<string>)
    ensures Dcg(gain, FirstHits(ranked + [a], gold))
            == Dcg(gain, FirstHits(ranked, gold)) + NewGain(gain, ranked, a, gold)
  {
    var all, hits := ranked + [a], FirstHits(ranked, gold);
    assert all[..|ranked|] == ranked;
    assert FreshHit(all, gold, |ranked|) <==> NewHit(ranked, a, gold) == 1;
    assert (hits + [|ranked| + 1])[..|hits|] == hits;
    assert hits + [] == hits;
  }
}
