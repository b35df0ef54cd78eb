/** The identity hash of a fact (fact_identity.py). SHA-256 with its truncation is the parameter sha. */
module FactIdentity {
  import opened Basics

  function Plain(subject: string, predicate_: string, obj: string, anchor: string): string {
    subject + ("|" + (predicate_ + ("|" + (obj + ("|" + anchor)))))
  }

  function FactDigest(sha: Hash, subject: string, predicate_: string, obj: string, anchor: string): string {
    sha(Plain(subject, predicate_, obj, anchor))
  }

  function FactRecordId(sha: Hash, subject: string, predicate_: string, obj: string, anchor: string): string {
    "fact:" + FactDigest(sha, subject, predicate_, obj, anchor)
  }

  /** The first field ends at the first delimiter. */
  lemma {:induction false} CutAtFirst(a: string, x: string, b: string, y: string)
    requires '|' !in a && '|' !in b && a + ("|" + x) == b + ("|" + y)
    ensures a == b && x == y
  {
    var s, t := a + ("|" + x), b + ("|" + y);
    assert s[|a|] == '|' && t[|b|] == '|';
    assert (forall i :: 0 <= i < |a| ==> s[i] in a) && (forall i :: 0 <= i < |b| ==> t[i] in b);
    assert a == s[..|a|] && b == t[..|b|];
    assert x == s[|a|+1..] && y == t[|b|+1..];
  }

  /** The last field starts behind the last delimiter. */
  lemma {:induction false} CutAtLast(a: string, x: string, b: string, y: string)
    requires '|' !in x && '|' !in y && a + ("|" + x) == b + ("|" + y)
    ensures a == b && x == y
  {
    var s, t := a + ("|" + x), b + ("|" + y);
    assert s[|a|] == '|' && t[|b|] == '|';
    assert (forall i :: |a| < i < |s| ==> s[i] in x) && (forall i :: |b| < i < |t| ==> t[i] in y);
    assert a == s[..|a|] && b == t[..|b|];
    assert x == s[|a|+1..] && y == t[|b|+1..];
  }

  predicate DelimiterFree(subject: string, predicate_: string, anchor: string) {
    '|' !in subject && '|' !in predicate_ && '|' !in anchor
  }

  /** With delimiter-free subject, predicate and anchor, the record id determines the fact, whatever its object. */
  lemma {:induction false} RecordIdIsInjective(sha: Hash, s1: string, p1: string, o1: string, a1: string,
                                               s2: string, p2: string, o2: string, a2: string)
    requires Injective(sha) && DelimiterFree(s1, p1, a1) && DelimiterFree(s2, p2, a2)
    ensures FactRecordId(sha, s1, p1, o1, a1) == FactRecordId(sha, s2, p2, o2, a2) <==>
            (s1, p1, o1, a1) == (s2, p2, o2, a2)
  {
    var q, r := Quad(s1, p1, o1, a1), Quad(s2, p2, o2, a2);
    SameIdMeansSameText(sha, q, r);
    if PlainText(q) == PlainText(r) {
      FreeFactsDifferInText(q, r);
    }
  }

  // ---------------------------------------------------------------------
  // Which facts share an id
  // ---------------------------------------------------------------------

  datatype Quad = Quad(subject: string, attribute: string, obj: string, anchor: string)

  function PlainText(q: Quad): string { Plain(q.subject, q.attribute, q.obj, q.anchor) }

  function QuadId(sha: Hash, q: Quad): string { FactRecordId(sha, q.subject, q.attribute, q.obj, q.anchor) }

  predicate IsDelimiterFree(q: Quad) { DelimiterFree(q.subject, q.attribute, q.anchor) }

  predicate NoDelimiter(s: string) { forall i :: 0 <= i < |s| ==> s[i] != '|' }

  lemma {:induction false} NoDelimiterInside(s: string)
    ensures NoDelimiter(s) <==> '|' !in s
  {
    assert forall i :: 0 <= i < |s| ==> s[i] in s;
  }

  /** The first delimiter at or behind from, or the end. */
  function FirstDelimiter(s: string, from: nat): (i: nat)
    requires from <= |s|
    ensures from <= i <= |s| && (i < |s| ==> s[i] == '|') && forall k :: from <= k < i ==> s[k] != '|'
    decreases |s| - from
  {
    if from == |s| || s[from] == '|' then from else FirstDelimiter(s, from + 1)
  }

  /** The last delimiter before end, or -1. */
  function LastDelimiter(s: string, end: nat): (i: int)
    requires end <= |s|
    ensures -1 <= i < end && (i >= 0 ==> s[i] == '|') && forall k :: i < k < end ==> s[k] != '|'
  {
    if end == 0 || s[end-1] == '|' then end - 1 else LastDelimiter(s, end - 1)
  }

  /** The text is cut at these three delimiters. */
  predicate CutsAt(t: string, i: int, j: int, k: int) {
    0 <= i < j < k < |t| && t[i] == '|' && t[j] == '|' && t[k] == '|'
  }

  function Parts(t: string, i: int, j: int, k: int): Quad
    requires CutsAt(t, i, j, k)
  {
    Quad(t[..i], t[i+1..j], t[j+1..k], t[k+1..])
  }

  lemma {:induction false} PartsMakeTheText(t: string, i: int, j: int, k: int)
    requires CutsAt(t, i, j, k)
    ensures PlainText(Parts(t, i, j, k)) == t
  {
    assert t == t[..i] + ([t[i]] + (t[i+1..j] + ([t[j]] + (t[j+1..k] + ([t[k]] + t[k+1..])))));
  }

  /** A text that starts with a and goes on behind a delimiter, seen as a piece of a longer text. */
  lemma {:induction false} PieceOf(t: string, from: nat, a: string, x: string)
    requires from <= |t| && t[from..] == a + ("|" + x)
    ensures var i := from + |a|;
            i < |t| && t[i] == '|' && t[from..i] == a && t[i+1..] == x
  {
    var rest := t[from..];
    assert rest[|a|] == '|' && rest[..|a|] == a && rest[|a|+1..] == x;
    assert t[from..from+|a|] == rest[..|a|] && t[from+|a|+1..] == rest[|a|+1..];
  }

  /** Every fact is a cut of its text. */
  lemma {:induction false} TextHoldsItsParts(q: Quad)
    ensures var t, i := PlainText(q), |q.subject|;
            var j := i + 1 + |q.attribute|;
            var k := j + 1 + |q.obj|;
            CutsAt(t, i, j, k) && Parts(t, i, j, k) == q
  {
    var t, i := PlainText(q), |q.subject|;
    var ending := q.obj + ("|" + q.anchor);
    assert t[0..] == t;
    PieceOf(t, 0, q.subject, q.attribute + ("|" + ending));
    PieceOf(t, i + 1, q.attribute, ending);
    PieceOf(t, i + 1 + |q.attribute| + 1, q.obj, q.anchor);
  }

  /** The delimiter-free fact with the same text: cut at the first, the second and the last delimiter. */
  function Namesake(q: Quad): Quad {
    var t := PlainText(q);
    TextHoldsItsParts(q);
    var i := FirstDelimiter(t, 0);
    Parts(t, i, FirstDelimiter(t, i + 1), LastDelimiter(t, |t|))
  }

  lemma {:induction false} FirstAndLastCutsAreFree(t: string, i: int, j: int, k: int)
    requires CutsAt(t, i, j, k)
    requires i == FirstDelimiter(t, 0) && j == FirstDelimiter(t, i + 1) && k == LastDelimiter(t, |t|)
    ensures IsDelimiterFree(Parts(t, i, j, k))
  {
    NoDelimiterInside(t[..i]);
    NoDelimiterInside(t[i+1..j]);
    NoDelimiterInside(t[k+1..]);
  }

  /** Every fact has a delimiter-free namesake, which is itself only if it is delimiter-free. */
  lemma {:induction false} NamesakeSharesTheText(q: Quad)
    ensures IsDelimiterFree(Namesake(q)) && PlainText(Namesake(q)) == PlainText(q)
    ensures IsDelimiterFree(q) <==> Namesake(q) == q
  {
    var t := PlainText(q);
    TextHoldsItsParts(q);
    var i := FirstDelimiter(t, 0);
    var j, k := FirstDelimiter(t, i + 1), LastDelimiter(t, |t|);
    PartsMakeTheText(t, i, j, k);
    FirstAndLastCutsAreFree(t, i, j, k);
    if IsDelimiterFree(q) {
      FreeFactsDifferInText(q, Namesake(q));
    }
  }

  lemma {:induction false} FreeFactsDifferInText(q: Quad, r: Quad)
    requires IsDelimiterFree(q) && IsDelimiterFree(r) && PlainText(q) == PlainText(r)
    ensures q == r
  {
    CutAtFirst(q.subject, q.attribute + ("|" + (q.obj + ("|" + q.anchor))),
               r.subject, r.attribute + ("|" + (r.obj + ("|" + r.anchor))));
    CutAtFirst(q.attribute, q.obj + ("|" + q.anchor), r.attribute, r.obj + ("|" + r.anchor));
    CutAtLast(q.obj, q.anchor, r.obj, r.anchor);
  }

  lemma {:induction false} SameIdMeansSameText(sha: Hash, q: Quad, r: Quad)
    requires Injective(sha)
    ensures QuadId(sha, q) == QuadId(sha, r) <==> PlainText(q) == PlainText(r)
  {
    assert QuadId(sha, q)[5..] == sha(PlainText(q)) && QuadId(sha, r)[5..] == sha(PlainText(r));
  }

  /** Two facts of any kind share an id exactly when they have the same namesake. */
  lemma {:induction false} SameIdMeansSameNamesake(sha: Hash, q: Quad, r: Quad)
    requires Injective(sha)
    ensures QuadId(sha, q) == QuadId(sha, r) <==> Namesake(q) == Namesake(r)
  {
    SameIdMeansSameText(sha, q, r);
    NamesakeSharesTheText(q);
    NamesakeSharesTheText(r);
  }

  /** Exactly the delimiter-free facts are told from every delimiter-free fact by their id. */
  lemma {:induction false} IdTellsFreeFacts(sha: Hash, q: Quad)
    requires Injective(sha)
    ensures IsDelimiterFree(q) <==>
            forall r :: IsDelimiterFree(r) && QuadId(sha, r) == QuadId(sha, q) ==> r == q
  {
    NamesakeSharesTheText(q);
    SameIdMeansSameText(sha, Namesake(q), q);
    if IsDelimiterFree(q) {
      forall r | IsDelimiterFree(r) && QuadId(sha, r) == QuadId(sha, q) ensures r == q {
        SameIdMeansSameText(sha, r, q);
        FreeFactsDifferInText(r, q);
      }
    }
  }

  /** Exactly the facts without any delimiter, in the object neither, share their id with no other fact at all. */
  lemma {:induction false} IdIsTheFactsAlone(sha: Hash, q: Quad)
    requires Injective(sha)
    ensures IsDelimiterFree(q) && '|' !in q.obj <==> forall r :: QuadId(sha, r) == QuadId(sha, q) ==> r == q
  {
    NamesakeSharesTheText(q);
    SameIdMeansSameText(sha, Namesake(q), q);
    if IsDelimiterFree(q) && '|' in q.obj {
      ShiftedIsAnother(q);
      SameIdMeansSameText(sha, Shifted(q), q);
    }
    if IsDelimiterFree(q) && '|' !in q.obj {
      forall r | QuadId(sha, r) == QuadId(sha, q) ensures r == q {
        SameIdMeansSameText(sha, r, q);
        OnlyOneCut(q, r);
      }
    }
  }

  /** The object up to its first delimiter counts as part of the attribute. */
  function Shifted(q: Quad): Quad {
    var i := FirstDelimiter(q.obj, 0);
    if i == |q.obj| then q else Quad(q.subject, q.attribute + ("|" + q.obj[..i]), q.obj[i+1..], q.anchor)
  }

  lemma {:induction false} ShiftedIsAnother(q: Quad)
    requires '|' in q.obj
    ensures Shifted(q) != q && PlainText(Shifted(q)) == PlainText(q)
  {
    var i := FirstDelimiter(q.obj, 0);
    assert NoDelimiter(q.obj) ==> i == |q.obj|;
    NoDelimiterInside(q.obj);
    var head, tail := q.obj[..i], q.obj[i+1..];
    assert q.obj == head + ("|" + tail);
    assert |Shifted(q).attribute| > |q.attribute|;
    Regrouped(q.attribute, head, tail, "|" + q.anchor);
  }

  lemma {:induction false} Regrouped(a: string, head: string, tail: string, rest: string)
    ensures (a + ("|" + head)) + ("|" + (tail + rest)) == a + ("|" + ((head + ("|" + tail)) + rest))
  {}

  lemma {:induction false} NoOtherDelimiter(t: string, i: int, j: int, k: int, n: nat)
    requires CutsAt(t, i, j, k) && n < |t| && n != i && n != j && n != k
    requires NoDelimiter(t[..i]) && NoDelimiter(t[i+1..j]) && NoDelimiter(t[j+1..k]) && NoDelimiter(t[k+1..])
    ensures t[n] != '|'
  {
    if n < i {
      assert t[n] == t[..i][n];
    } else if n < j {
      assert t[n] == t[i+1..j][n-i-1];
    } else if n < k {
      assert t[n] == t[j+1..k][n-j-1];
    } else {
      assert t[n] == t[k+1..][n-k-1];
    }
  }

  /** A text with three delimiters has one cut. */
  lemma {:induction false} CutIsUnique(t: string, i: int, j: int, k: int, x: int, y: int, z: int)
    requires CutsAt(t, i, j, k) && CutsAt(t, x, y, z)
    requires NoDelimiter(t[..i]) && NoDelimiter(t[i+1..j]) && NoDelimiter(t[j+1..k]) && NoDelimiter(t[k+1..])
    ensures x == i && y == j && z == k
  {
    forall n: nat | n < |t| && n != i && n != j && n != k ensures t[n] != '|' {
      NoOtherDelimiter(t, i, j, k, n);
    }
  }

  lemma {:induction false} OnlyOneCut(q: Quad, r: Quad)
    requires IsDelimiterFree(q) && '|' !in q.obj && PlainText(q) == PlainText(r)
    ensures r == q
  {
    TextHoldsItsParts(q);
    TextHoldsItsParts(r);
    NoDelimiterInside(q.subject);
    NoDelimiterInside(q.attribute);
    NoDelimiterInside(q.obj);
    NoDelimiterInside(q.anchor);
    var j, y := |q.subject| + 1 + |q.attribute|, |r.subject| + 1 + |r.attribute|;
    CutIsUnique(PlainText(q), |q.subject|, j, j + 1 + |q.obj|, |r.subject|, y, y + 1 + |r.obj|);
  }

  /** A delimiter in the predicate: two different facts, as the fact type admits them, with one record id. */
  lemma {:induction false} DelimiterCollides(sha: Hash)
    ensures FactRecordId(sha, "Ann", "likes|owns", "tea", "turn-1")
            == FactRecordId(sha, "Ann", "likes", "owns|tea", "turn-1")
  {
    assert Plain("Ann", "likes|owns", "tea", "turn-1") == Plain("Ann", "likes", "owns|tea", "turn-1") by {
      Regrouped("likes", "owns", "tea", "|turn-1");
      assert "likes" + ("|" + "owns") == "likes|owns" && "owns" + ("|" + "tea") == "owns|tea";
      assert "|" + "turn-1" == "|turn-1";
    }
  }
}
