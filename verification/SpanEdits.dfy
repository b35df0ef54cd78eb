/**
 Rewriting docstrings and comments in place (scripts/strip_pydoc_backticks.py): the loop
 edits span by span, last one first, so that the offsets of the others stay right, and
 gives what rewriting all spans at once would give; offsets come from lines and columns.
 */
module SpanEdits {
  import opened Basics

  type Clean = string -> string

  datatype Span = Span(start: nat, end: nat)

  function Clamp(i: nat, n: nat): nat { if i < n then i else n }

  /** s[start:end] with offsets cut to the text. */
  function Slice(s: string, span: Span): string {
    var a, b := Clamp(span.start, |s|), Clamp(span.end, |s|);
    if a <= b then s[a..b] else ""
  }

  /** One rewrite: a text that cleaning changes is replaced. */
  function Edit(s: string, span: Span, clean: Clean): string {
    var text := Slice(s, span);
    if clean(text) == text then s else s[..Clamp(span.start, |s|)] + clean(text) + s[Clamp(span.end, |s|)..]
  }

  function Edited(s: string, spans: seq<Span>, clean: Clean): string {
    if spans == [] then s else Edit(Edited(s, spans[..|spans|-1], clean), spans[|spans|-1], clean)
  }

  function InsertLast(x: Span, spans: seq<Span>): seq<Span> {
    if spans == [] || x.start > spans[0].start then [x] + spans else [spans[0]] + InsertLast(x, spans[1..])
  }

  /** A stable sort by start, last first. */
  function LastFirst(spans: seq<Span>): seq<Span> {
    if spans == [] then [] else InsertLast(spans[|spans|-1], LastFirst(spans[..|spans|-1]))
  }

  /**
   The rewriting loop of process_file, and how many spans it changed. For disjoint spans
   this is the rewrite of all spans of the original text at once.
   */
  method RewriteSpans(source: string, spans: seq<Span>, clean: Clean) returns (newSource: string, replacements: nat)
    ensures newSource == Edited(source, LastFirst(spans), clean)
    ensures replacements == Changes(source, LastFirst(spans), clean)
    ensures Disjoint(source, spans) ==> newSource == AllAtOnce(source, spans, 0, clean)
    ensures Disjoint(source, spans) ==> replacements == Unclean(source, spans, clean)
  {
    var ordered := LastFirst(spans);
    newSource, replacements := source, 0;
    for i := 0 to |ordered|
      invariant newSource == Edited(source, ordered[..i], clean) && replacements == Changes(source, ordered[..i], clean)
    {
      NextEdit(source, ordered, i, clean);
      var original := Slice(newSource, ordered[i]);
      var cleaned := clean(original);
      if cleaned == original {
        continue;
      }
      replacements := replacements + 1;
      newSource := newSource[..Clamp(ordered[i].start, |newSource|)] + cleaned
                   + newSource[Clamp(ordered[i].end, |newSource|)..];
    }
    assert ordered[..|ordered|] == ordered;
    if Disjoint(source, spans) {
      LoopRewritesAllAtOnce(source, spans, clean);
      ChangesAreUnclean(source, spans, clean);
    }
  }

  lemma {:induction false} NextEdit(s: string, spans: seq<Span>, i: nat, clean: Clean)
    requires i < |spans|
    ensures var before := Edited(s, spans[..i], clean);
            Edited(s, spans[..i+1], clean) == Edit(before, spans[i], clean)
            && Changes(s, spans[..i+1], clean)
               == Changes(s, spans[..i], clean)
                  + if clean(Slice(before, spans[i])) == Slice(before, spans[i]) then 0 else 1
  {
    assert spans[..i+1][..i] == spans[..i];
  }

  function Changes(s: string, spans: seq<Span>, clean: Clean): nat {
    if spans == [] then 0
    else
      var front, text := spans[..|spans|-1], Slice(Edited(s, spans[..|spans|-1], clean), spans[|spans|-1]);
      Changes(s, front, clean) + if clean(text) == text then 0 else 1
  }

  // ---------------------------------------------------------------------
  // All rewrites at once
  // ---------------------------------------------------------------------

  /** Spans that lie in the text, are not empty, and do not overlap. */
  ghost predicate Disjoint(s: string, spans: seq<Span>) {
    Distinct(spans)
    && (forall x <- spans :: x.start < x.end <= |s|)
    && forall x <- spans, y <- spans :: x != y ==> x.end <= y.start || y.end <= x.start
  }

  function SpanAt(spans: seq<Span>, at: nat): Option<Span> {
    if spans == [] then None
    else if spans[|spans|-1].start == at then Some(spans[|spans|-1])
    else SpanAt(spans[..|spans|-1], at)
  }

  /** Copying the text from an offset on, with every span that starts on the way replaced. */
  function AllAtOnce(s: string, spans: seq<Span>, at: nat, clean: Clean): string
    requires at <= |s|
    decreases |s| - at
  {
    if at == |s| then ""
    else
      var here := SpanAt(spans, at);
      if here.Some? && at < here.value.end <= |s| then
        clean(s[at..here.value.end]) + AllAtOnce(s, spans, here.value.end, clean)
      else [s[at]] + AllAtOnce(s, spans, at + 1, clean)
  }

  /** A span is found where it starts, and nothing else is. */
  lemma {:induction false} SpanAtFinds(spans: seq<Span>, at: nat)
    ensures match SpanAt(spans, at)
            case Some(x) => x in spans && x.start == at
            case None => forall x <- spans :: x.start != at
  {
    if spans != [] {
      SpanAtFinds(spans[..|spans|-1], at);
      assert spans == spans[..|spans|-1] + [spans[|spans|-1]];
    }
  }

  /** Where no span starts the text is copied. */
  lemma {:induction false} CopyUpTo(s: string, spans: seq<Span>, from: nat, to: nat, clean: Clean)
    requires from <= to <= |s| && forall x <- spans :: to <= x.start
    ensures AllAtOnce(s, spans, from, clean) == s[from..to] + AllAtOnce(s, spans, to, clean)
    decreases |s| - from
  {
    if from < to {
      SpanAtFinds(spans, from);
      CopyUpTo(s, spans, from + 1, to, clean);
      Associates([s[from]], s[from+1..to], AllAtOnce(s, spans, to, clean));
      assert [s[from]] + s[from+1..to] == s[from..to];
    } else {
      assert s[from..to] == "";
    }
  }

  /** Only the spans that can still start matter. */
  lemma {:induction false} SameFromHere(s: string, a: seq<Span>, b: seq<Span>, at: nat, clean: Clean)
    requires at <= |s| && forall k: nat :: at <= k ==> SpanAt(a, k) == SpanAt(b, k)
    ensures AllAtOnce(s, a, at, clean) == AllAtOnce(s, b, at, clean)
    decreases |s| - at
  {
    if at < |s| {
      var here := SpanAt(a, at);
      assert here == SpanAt(b, at);
      if here.Some? && at < here.value.end <= |s| {
        SameFromHere(s, a, b, here.value.end, clean);
      } else {
        SameFromHere(s, a, b, at + 1, clean);
      }
    }
  }

  predicate Descending(spans: seq<Span>) { forall i, j :: 0 <= i < j < |spans| ==> spans[i].start >= spans[j].start }

  lemma {:induction false} EarlierSpansLieBehind(s: string, spans: seq<Span>)
    requires Disjoint(s, spans) && Descending(spans) && spans != []
    ensures var front, last := spans[..|spans|-1], spans[|spans|-1];
            Disjoint(s, front) && Descending(front) && (forall x <- front :: last.end <= x.start)
  {}

  /** The rewritten text is that before lo, followed by all rewrites from lo on. */
  ghost predicate RightFrom(s: string, spans: seq<Span>, lo: nat, clean: Clean) {
    lo <= |s| && Edited(s, spans, clean) == s[..lo] + AllAtOnce(s, spans, lo, clean)
  }

  lemma {:induction false} RightFromEarlier(s: string, spans: seq<Span>, lo: nat, hi: nat, clean: Clean)
    requires RightFrom(s, spans, hi, clean) && lo <= hi && forall x <- spans :: hi <= x.start
    ensures RightFrom(s, spans, lo, clean)
  {
    CopyUpTo(s, spans, lo, hi, clean);
    Associates(s[..lo], s[lo..hi], AllAtOnce(s, spans, hi, clean));
    assert s[..lo] + s[lo..hi] == s[..hi];
  }

  lemma {:induction false} RightWithoutSpans(s: string, clean: Clean)
    ensures RightFrom(s, [], |s|, clean)
  {}

  /** Rewriting from the last span to the first is right from the first span on. */
  lemma {:induction false} BackwardsIsAllAtOnce(s: string, spans: seq<Span>, lo: nat, clean: Clean)
    requires Disjoint(s, spans) && Descending(spans) && lo <= |s| && forall x <- spans :: lo <= x.start
    ensures RightFrom(s, spans, lo, clean)
  {
    if spans == [] {
      RightWithoutSpans(s, clean);
      RightFromEarlier(s, spans, lo, |s|, clean);
    } else {
      var front, last := spans[..|spans|-1], spans[|spans|-1];
      assert last in spans;
      EarlierSpansLieBehind(s, spans);
      BackwardsIsAllAtOnce(s, front, last.end, clean);
      OneMoreEdit(s, front, last, clean);
      assert spans == front + [last];
      forall x | x in spans ensures last.start <= x.start {
        assert x in front || x == last;
      }
      RightFromEarlier(s, spans, lo, last.start, clean);
    }
  }

  lemma {:induction false} OneMoreEdit(s: string, front: seq<Span>, last: Span, clean: Clean)
    requires last.start < last.end <= |s| && forall x <- front :: last.end <= x.start
    requires RightFrom(s, front, last.end, clean)
    ensures RightFrom(s, front + [last], last.start, clean)
  {
    var spans, tail, before := front + [last], AllAtOnce(s, front, last.end, clean), Edited(s, front, clean);
    assert spans[..|spans|-1] == front;
    EditBefore(s, last, tail, clean);
    SameFromHere(s, front, spans, last.end, clean);
    Associates(s[..last.start], clean(s[last.start..last.end]), tail);
  }

  lemma {:induction false} EditBefore(s: string, last: Span, tail: string, clean: Clean)
    requires last.start < last.end <= |s|
    ensures Edit(s[..last.end] + tail, last, clean) == s[..last.start] + clean(s[last.start..last.end]) + tail
  {}

  lemma {:induction false} InsertLastInserts(x: Span, spans: seq<Span>)
    requires Descending(spans)
    ensures Descending(InsertLast(x, spans))
    ensures forall y :: y in InsertLast(x, spans) <==> y == x || y in spans
    ensures Distinct(spans) && x !in spans ==> Distinct(InsertLast(x, spans))
  {
    if spans != [] && x.start <= spans[0].start {
      InsertLastInserts(x, spans[1..]);
      assert spans == [spans[0]] + spans[1..];
      var tail := InsertLast(x, spans[1..]);
      forall j | 0 <= j < |tail| ensures tail[j].start <= spans[0].start {
        assert tail[j] in tail;
      }
      if Distinct(spans) && x !in spans {
        assert spans[0] !in spans[1..];
        assert spans[0] !in tail;
      }
    }
  }

  lemma {:induction false} LastFirstSorts(spans: seq<Span>)
    ensures Descending(LastFirst(spans))
    ensures forall y :: y in LastFirst(spans) <==> y in spans
    ensures Distinct(spans) ==> Distinct(LastFirst(spans))
  {
    if spans != [] {
      var front, last := spans[..|spans|-1], spans[|spans|-1];
      LastFirstSorts(front);
      InsertLastInserts(last, LastFirst(front));
      assert spans == front + [last];
      assert Distinct(spans) ==> last !in front;
    }
  }

  /**
   The loop rewrites all spans of the original text at once: what lies outside them is
   kept in place and in order, however long each rewrite is.
   */
  lemma {:induction false} LoopRewritesAllAtOnce(s: string, spans: seq<Span>, clean: Clean)
    requires Disjoint(s, spans)
    ensures Edited(s, LastFirst(spans), clean) == AllAtOnce(s, spans, 0, clean)
  {
    var ordered := LastFirst(spans);
    LastFirstSorts(spans);
    BackwardsIsAllAtOnce(s, ordered, 0, clean);
    forall k: nat ensures SpanAt(ordered, k) == SpanAt(spans, k) {
      SpanAtFinds(ordered, k);
      SpanAtFinds(spans, k);
    }
    SameFromHere(s, ordered, spans, 0, clean);
  }

  // ---------------------------------------------------------------------
  // A text in pieces
  // ---------------------------------------------------------------------

  /** A text cut into what lies outside the spans and what lies in them. */
  datatype Piece = Outside(text: string) | Inside(text: string)

  predicate ProperPieces(pieces: seq<Piece>) {
    forall i :: 0 <= i < |pieces| && pieces[i].Inside? ==> pieces[i].text != ""
  }

  function Whole(pieces: seq<Piece>): string { if pieces == [] then "" else pieces[0].text + Whole(pieces[1..]) }

  /** The spans of the inner pieces of a text that starts at an offset. */
  function SpansOf(pieces: seq<Piece>, at: nat): seq<Span> {
    if pieces == [] then []
    else
      var end := at + |pieces[0].text|;
      (if pieces[0].Inside? then [Span(at, end)] else []) + SpansOf(pieces[1..], end)
  }

  /** The text with every inner piece cleaned. */
  function Cleaned(pieces: seq<Piece>, clean: Clean): string {
    if pieces == [] then ""
    else (if pieces[0].Inside? then clean(pieces[0].text) else pieces[0].text) + Cleaned(pieces[1..], clean)
  }

  lemma {:induction false} SpansLieBehind(pieces: seq<Piece>, at: nat)
    requires ProperPieces(pieces)
    ensures forall x <- SpansOf(pieces, at) :: at <= x.start < x.end
  {
    if pieces != [] {
      assert forall i :: 0 <= i < |pieces| - 1 ==> pieces[1..][i] == pieces[i+1];
      SpansLieBehind(pieces[1..], at + |pieces[0].text|);
    }
  }

  /** Copying from an offset is blind to spans that start before it. */
  lemma {:induction false} EarlierSpanIsPast(s: string, x: Span, spans: seq<Span>, at: nat, clean: Clean)
    requires x.start < at <= |s|
    ensures AllAtOnce(s, [x] + spans, at, clean) == AllAtOnce(s, spans, at, clean)
  {
    forall k: nat | at <= k ensures SpanAt([x] + spans, k) == SpanAt(spans, k) {
      SpanBehindFront(x, spans, k);
    }
    SameFromHere(s, [x] + spans, spans, at, clean);
  }

  lemma {:induction false} SpanBehindFront(x: Span, spans: seq<Span>, k: nat)
    ensures SpanAt([x] + spans, k) == if SpanAt(spans, k).Some? || x.start != k then SpanAt(spans, k) else Some(x)
  {
    var all := [x] + spans;
    if spans == [] {
      assert all[..0] == [];
    } else {
      SpanBehindFront(x, spans[..|spans|-1], k);
      assert all[..|all|-1] == [x] + spans[..|spans|-1];
    }
  }

  /** From the start of its pieces on, a text is rewritten piece by piece. */
  lemma {:induction false} PiecesAreCleaned(s: string, pieces: seq<Piece>, at: nat, clean: Clean)
    requires ProperPieces(pieces) && at <= |s| && s[at..] == Whole(pieces)
    ensures AllAtOnce(s, SpansOf(pieces, at), at, clean) == Cleaned(pieces, clean)
    decreases |pieces|
  {
    if pieces != [] {
      var rest := pieces[1..];
      var end := at + |pieces[0].text|;
      RestOfPieces(s, pieces, at);
      PiecesAreCleaned(s, rest, end, clean);
      OnePieceMore(s, pieces, at, Cleaned(rest, clean), clean);
    }
  }

  lemma {:induction false} OnePieceMore(s: string, pieces: seq<Piece>, at: nat, tail: string, clean: Clean)
    requires ProperPieces(pieces) && pieces != [] && at + |pieces[0].text| <= |s|
    requires s[at..at+|pieces[0].text|] == pieces[0].text
    requires forall x <- SpansOf(pieces[1..], at + |pieces[0].text|) :: at + |pieces[0].text| <= x.start
    requires AllAtOnce(s, SpansOf(pieces[1..], at + |pieces[0].text|), at + |pieces[0].text|, clean) == tail
    ensures AllAtOnce(s, SpansOf(pieces, at), at, clean)
            == (if pieces[0].Inside? then clean(pieces[0].text) else pieces[0].text) + tail
  {
    FirstPieceIsCleaned(s, pieces[0], SpansOf(pieces[1..], at + |pieces[0].text|), at, clean);
  }

  lemma {:induction false} FirstPieceIsCleaned(s: string, piece: Piece, spans: seq<Span>, at: nat, clean: Clean)
    requires at + |piece.text| <= |s| && s[at..at+|piece.text|] == piece.text && (piece.Inside? ==> piece.text != "")
    requires forall x <- spans :: at + |piece.text| <= x.start
    ensures var end := at + |piece.text|;
            AllAtOnce(s, (if piece.Inside? then [Span(at, end)] else []) + spans, at, clean)
            == (if piece.Inside? then clean(piece.text) else piece.text) + AllAtOnce(s, spans, end, clean)
  {
    var end := at + |piece.text|;
    if piece.Inside? {
      FirstSpanIsCleaned(s, spans, at, end, clean);
    } else {
      CopyUpTo(s, spans, at, end, clean);
      assert [] + spans == spans;
    }
  }

  lemma {:induction false} RestOfPieces(s: string, pieces: seq<Piece>, at: nat)
    requires ProperPieces(pieces) && pieces != [] && at <= |s| && s[at..] == Whole(pieces)
    ensures var end := at + |pieces[0].text|;
            end <= |s| && s[at..end] == pieces[0].text && s[end..] == Whole(pieces[1..]) && ProperPieces(pieces[1..])
            && forall x <- SpansOf(pieces[1..], end) :: end <= x.start
  {
    var text, rest := pieces[0].text, pieces[1..];
    SpansLieBehind(rest, at + |text|);
    assert forall i :: 0 <= i < |rest| ==> rest[i] == pieces[i+1];
    var tail := s[at..];
    assert tail == text + Whole(rest);
    assert tail[..|text|] == text && tail[|text|..] == Whole(rest);
    assert s[at..at+|text|] == tail[..|text|] && s[at+|text|..] == tail[|text|..];
  }

  lemma {:induction false} FirstSpanIsCleaned(s: string, spans: seq<Span>, at: nat, end: nat, clean: Clean)
    requires at < end <= |s| && forall x <- spans :: end <= x.start
    ensures AllAtOnce(s, [Span(at, end)] + spans, at, clean) == clean(s[at..end]) + AllAtOnce(s, spans, end, clean)
  {
    var first := Span(at, end);
    SpanAtFinds(spans, at);
    SpanBehindFront(first, spans, at);
    EarlierSpanIsPast(s, first, spans, end, clean);
  }

  lemma {:induction false} SpansOfPiecesAreDisjoint(s: string, pieces: seq<Piece>, at: nat)
    requires ProperPieces(pieces) && at + |Whole(pieces)| <= |s|
    ensures Disjoint(s, SpansOf(pieces, at))
  {
    if pieces != [] {
      var rest, end := pieces[1..], at + |pieces[0].text|;
      assert forall i :: 0 <= i < |rest| ==> rest[i] == pieces[i+1];
      SpansOfPiecesAreDisjoint(s, rest, end);
      SpansLieBehind(rest, end);
      if pieces[0].Inside? {
        OneMoreInFront(s, Span(at, end), SpansOf(rest, end));
      } else {
        assert [] + SpansOf(rest, end) == SpansOf(rest, end);
      }
    }
  }

  lemma {:induction false} OneMoreInFront(s: string, x: Span, spans: seq<Span>)
    requires Disjoint(s, spans) && x.start < x.end <= |s| && forall y <- spans :: x.end <= y.start
    ensures Disjoint(s, [x] + spans)
  {
    var all := [x] + spans;
    assert x !in spans;
    assert forall i :: 0 < i < |all| ==> all[i] == spans[i-1] && all[i] in spans;
    forall y, z | y in all && z in all && y != z ensures y.end <= z.start || z.end <= y.start {
      assert (y == x || y in spans) && (z == x || z in spans);
    }
  }

  /**
   However a text is cut into pieces, outside and inside, the loop gives the text in which
   the outside pieces stay and the inside ones are cleaned, each in its place.
   */
  lemma {:induction false} LoopCleansInsidePieces(pieces: seq<Piece>, clean: Clean)
    requires ProperPieces(pieces)
    ensures Edited(Whole(pieces), LastFirst(SpansOf(pieces, 0)), clean) == Cleaned(pieces, clean)
  {
    var s := Whole(pieces);
    assert s[0..] == s;
    SpansOfPiecesAreDisjoint(s, pieces, 0);
    LoopRewritesAllAtOnce(s, SpansOf(pieces, 0), clean);
    PiecesAreCleaned(s, pieces, 0, clean);
  }

  /** How many of the spans hold text that cleaning changes. */
  function Unclean(s: string, spans: seq<Span>, clean: Clean): nat {
    if spans == [] then 0
    else
      var text := Slice(s, spans[|spans|-1]);
      Unclean(s, spans[..|spans|-1], clean) + if clean(text) == text then 0 else 1
  }

  /** Earlier rewrites do not disturb a span. */
  lemma {:induction false} SortedChangesAreUnclean(s: string, spans: seq<Span>, clean: Clean)
    requires Disjoint(s, spans) && Descending(spans)
    ensures Changes(s, spans, clean) == Unclean(s, spans, clean)
  {
    if spans != [] {
      var front, last := spans[..|spans|-1], spans[|spans|-1];
      assert last in spans;
      EarlierSpansLieBehind(s, spans);
      SortedChangesAreUnclean(s, front, clean);
      BackwardsIsAllAtOnce(s, front, last.end, clean);
      assert Slice(Edited(s, front, clean), last) == Slice(s, last);
    }
  }

  lemma {:induction false} UncleanInFront(s: string, x: Span, spans: seq<Span>, clean: Clean)
    ensures Unclean(s, [x] + spans, clean)
            == Unclean(s, spans, clean) + if clean(Slice(s, x)) == Slice(s, x) then 0 else 1
  {
    var all := [x] + spans;
    if spans == [] {
      assert all[..0] == [];
    } else {
      UncleanInFront(s, x, spans[..|spans|-1], clean);
      assert all[..|all|-1] == [x] + spans[..|spans|-1];
    }
  }

  lemma {:induction false} UncleanOfInserted(s: string, x: Span, spans: seq<Span>, clean: Clean)
    ensures Unclean(s, InsertLast(x, spans), clean)
            == Unclean(s, spans, clean) + if clean(Slice(s, x)) == Slice(s, x) then 0 else 1
  {
    UncleanInFront(s, x, spans, clean);
    if spans != [] && x.start <= spans[0].start {
      UncleanOfInserted(s, x, spans[1..], clean);
      UncleanInFront(s, spans[0], InsertLast(x, spans[1..]), clean);
      UncleanInFront(s, spans[0], spans[1..], clean);
      assert [spans[0]] + spans[1..] == spans;
    }
  }

  lemma {:induction false} UncleanOfSorted(s: string, spans: seq<Span>, clean: Clean)
    ensures Unclean(s, LastFirst(spans), clean) == Unclean(s, spans, clean)
  {
    if spans != [] {
      var front, last := spans[..|spans|-1], spans[|spans|-1];
      UncleanOfSorted(s, front, clean);
      UncleanOfInserted(s, last, LastFirst(front), clean);
    }
  }

  /** The loop counts exactly the spans of the original text that cleaning changes. */
  lemma {:induction false} ChangesAreUnclean(s: string, spans: seq<Span>, clean: Clean)
    requires Disjoint(s, spans)
    ensures Changes(s, LastFirst(spans), clean) == Unclean(s, spans, clean)
  {
    LastFirstSorts(spans);
    SortedChangesAreUnclean(s, LastFirst(spans), clean);
    UncleanOfSorted(s, spans, clean);
  }

  // ---------------------------------------------------------------------
  // Offsets
  // ---------------------------------------------------------------------

  /** The offset behind the next newline. */
  function AfterNewline(s: string, from: nat): (r: Option<nat>)
    requires from <= |s|
    ensures r.Some? ==> from < r.value <= |s|
    decreases |s| - from
  {
    if from == |s| then None else if s[from] == '\n' then Some(from + 1) else AfterNewline(s, from + 1)
  }

  /** Where a line starts; lines count from 1. */
  function LineStart(s: string, line: nat): (r: Option<nat>)
    ensures r.Some? ==> r.value <= |s|
  {
    if line <= 1 then Some(0)
    else
      var previous := LineStart(s, line - 1);
      if previous == None then None else AfterNewline(s, previous.value)
  }

  function Newlines(s: string): nat {
    if s == "" then 0 else Newlines(s[..|s|-1]) + if s[|s|-1] == '\n' then 1 else 0
  }

  lemma {:induction false} NewlineFollows(s: string, from: nat)
    requires from <= |s|
    ensures match AfterNewline(s, from)
            case Some(i) => s[i-1] == '\n' && Newlines(s[..i]) == Newlines(s[..from]) + 1
            case None => Newlines(s) == Newlines(s[..from])
    decreases |s| - from
  {
    if from == |s| {
      assert s[..from] == s;
    } else {
      assert s[..from+1][..from] == s[..from];
      if s[from] != '\n' {
        NewlineFollows(s, from + 1);
      }
    }
  }

  /** A line starts behind as many newlines as lines precede it, right behind the last of them; or there are too few. */
  lemma {:induction false} LineStartsBehindItsNewlines(s: string, line: nat)
    requires line >= 1
    ensures match LineStart(s, line)
            case Some(start) => Newlines(s[..start]) == line - 1 && (start == 0 || s[start-1] == '\n')
            case None => Newlines(s) < line - 1
  {
    if line == 1 {
      assert s[..0] == "";
    } else {
      LineStartsBehindItsNewlines(s, line - 1);
      var previous := LineStart(s, line - 1);
      if previous.Some? {
        NewlineFollows(s, previous.value);
      }
    }
  }

  /** No offset, but an exception, when the line does not exist. */
  method LineColToOffset(source: string, line: nat, col: nat) returns (offset: Option<nat>)
    ensures offset == var start := LineStart(source, line); if start == None then None else Some(start.value + col)
  {
    var pos := 0;
    var k := 1;
    while k < line
      invariant 1 <= k && (if line >= 1 then k <= line else k == 1)
      invariant pos <= |source| && LineStart(source, k) == Some(pos)
    {
      var next := AfterNewline(source, pos);
      if next == None {
        NoLaterLine(source, k + 1, line);
        return None;
      }
      pos := next.value;
      k := k + 1;
    }
    offset := Some(pos + col);
  }

  lemma {:induction false} NoLaterLine(s: string, line: nat, later: nat)
    requires 1 <= line <= later && LineStart(s, line) == None
    ensures LineStart(s, later) == None
    decreases later
  {
    if line < later {
      NoLaterLine(s, line, later - 1);
    }
  }

  /** Bytes of a character in UTF-8. */
  function Width(c: char): nat {
    var u := c as int;
    if u < 0x80 then 1 else if u < 0x800 then 2 else if u < 0x1_0000 then 3 else 4
  }

  function Bytes(s: string): nat { if s == "" then 0 else Bytes(s[..|s|-1]) + Width(s[|s|-1]) }

  predicate Ascii(s: string) { forall i :: 0 <= i < |s| ==> s[i] as int < 0x80 }

  lemma {:induction false} BytesOfAscii(s: string)
    ensures Bytes(s) >= |s| && (Bytes(s) == |s| <==> Ascii(s))
  {
    if s != "" {
      BytesOfAscii(s[..|s|-1]);
      assert Ascii(s) <==> Ascii(s[..|s|-1]) && s[|s|-1] as int < 0x80;
    }
  }

  /**
   ast counts columns in bytes. The offset computed from such a column is that of the
   character meant exactly when only ASCII characters precede it on its line.
   */
  lemma {:induction false} ByteColumnsNeedAscii(source: string, line: nat, at: nat)
    requires LineStart(source, line).Some? && LineStart(source, line).value <= at <= |source|
    ensures var start := LineStart(source, line).value;
            var column := Bytes(source[start..at]);
            (start + column == at <==> Ascii(source[start..at])) && start + column >= at
  {
    BytesOfAscii(source[LineStart(source, line).value..at]);
  }

  predicate Bare(s: string) { forall i :: 0 <= i < |s| ==> s[i] != '`' && s[i] != ':' }

  /** What clean_text does away from roles: a lone backtick stays, a pair around some text goes. */
  ghost predicate StripsPairs(clean: Clean) {
    (forall a, b :: Bare(a) && Bare(b) ==> clean(a + "`" + b) == a + "`" + b)
    && forall a, b, c :: Bare(a) && Bare(b) && Bare(c) && b != "" ==> clean(a + "`" + b + "`" + c) == a + b + c
  }

  lemma {:induction false} OneSpan(s: string, x: Span, clean: Clean)
    requires x.start == 0 && x.end <= |s|
    ensures var text := s[..x.end];
            Edited(s, LastFirst([x]), clean) == if clean(text) == text then s else clean(text) + s[x.end..]
  {
    assert [x][..0] == [] && LastFirst([x]) == InsertLast(x, []) == [x];
    assert Edited(s, [x], clean) == Edit(s, x, clean);
    assert Slice(s, x) == s[..x.end] && s[..0] == "";
  }

  /** Up to the end of the first literal nothing changes; three characters more take in the next backtick. */
  lemma {:induction false} ThreeTooFar(text: string, clean: Clean)
    requires StripsPairs(clean) && Bare(text)
    ensures var source := text + "`" + "\";\"" + "`" + "\"";
            Edited(source, LastFirst([Span(0, |text| + 2)]), clean) == source
            && Edited(source, LastFirst([Span(0, |text| + 5)]), clean) == text + "\";\"" + "\""
  {
    var source := text + "`" + "\";\"" + "`" + "\"";
    var n := |text|;
    OneSpan(source, Span(0, n + 2), clean);
    OneSpan(source, Span(0, n + 5), clean);
    assert source[..n + 2] == text + "`" + "\"";
    assert source[..n + 5] == text + "`" + "\";\"" + "`" + "" && source[n + 5..] == "\"";
    assert Bare("\"") && Bare("\";\"") && Bare("");
    assert clean(source[..n + 5]) == text + "\";\"" + "";
    assert text + "\";\"" + "" == text + "\";\"";
  }

  /**
   A docstring with three accents: its end, given in bytes, is taken three characters too
   far. With its true end the docstring is left alone; with the computed one the rewrite
   takes the backtick out of the literal behind it.
   */
  lemma {:induction false} AccentMovesTheEnd(clean: Clean)
    requires StripsPairs(clean)
    ensures var docstring := "\"\U{e9}\U{e9}\U{e9}`\"";
            var source := docstring + ";\"`\"";
            var end := LineStart(source, 1).value + Bytes(source[..|docstring|]);
            end == |docstring| + 3
            && Edited(source, LastFirst([Span(0, |docstring|)]), clean) == source
            && Edited(source, LastFirst([Span(0, end)]), clean) == "\"\U{e9}\U{e9}\U{e9}\";\"\""
  {
    var text := "\"\U{e9}\U{e9}\U{e9}";
    var docstring := "\"\U{e9}\U{e9}\U{e9}`\"";
    var source := docstring + ";\"`\"";
    assert source[..|docstring|] == docstring;
    BytesOfDocstring(docstring);
    ThreeTooFar(text, clean);
    assert source == text + "`" + "\";\"" + "`" + "\"";
  }

  lemma {:induction false} BytesOfDocstring(docstring: string)
    requires docstring == "\"\U{e9}\U{e9}\U{e9}`\""
    ensures Bytes(docstring) == 9
  {
    assert docstring[..6] == docstring && docstring[..0] == "";
    forall k | 0 <= k < 6 ensures Bytes(docstring[..k+1]) == Bytes(docstring[..k]) + Width(docstring[k]) {
      assert docstring[..k+1][..k] == docstring[..k];
    }
    assert Bytes(docstring[..1]) == 1 && Bytes(docstring[..2]) == 3 && Bytes(docstring[..3]) == 5;
    assert Bytes(docstring[..4]) == 7 && Bytes(docstring[..5]) == 8 && Bytes(docstring[..6]) == 9;
  }
}
