/** Comma-joined text: split, strip and join as the writer tools use them (resolver.py). */
module CommaText {
  import opened Basics

  predicate IsSpace(c: char) { c in " \t\n\r" }

  function StripLeft(s: string): string {
    if s != "" && IsSpace(s[0]) then StripLeft(s[1..]) else s
  }

  function StripRight(s: string): string {
    if s != "" && IsSpace(s[|s|-1]) then StripRight(s[..|s|-1]) else s
  }

  function Strip(s: string): string { StripRight(StripLeft(s)) }

  /** str.split(","): never empty. */
  function Split(s: string): (parts: seq<string>)
    ensures parts != []
  {
    if s == "" then [""]
    else if s[0] == ',' then [""] + Split(s[1..])
    else
      var rest := Split(s[1..]);
      [[s[0]] + rest[0]] + rest[1..]
  }

  /** The stripped parts that are not blank. */
  function Kept(parts: seq<string>): seq<string> {
    if parts == [] then []
    else
      var p := Strip(parts[0]);
      (if p != "" then [p] else []) + Kept(parts[1..])
  }

  function ParseItems(value: string): seq<string> { Kept(Split(value)) }

  function Join(items: seq<string>): string {
    if items == [] then "" else if |items| == 1 then items[0] else items[0] + (", " + Join(items[1..]))
  }

  /** A text as AtomicFact admits it: not empty, stripped. */
  predicate IsStripped(s: string) { s != "" && Strip(s) == s }

  /** Such a text without commas. */
  predicate IsItem(s: string) { IsStripped(s) && ',' !in s }

  /** The items of several texts, one text after the other. */
  function Flat(texts: seq<string>): seq<string> {
    if texts == [] then [] else Flat(texts[..|texts|-1]) + ParseItems(texts[|texts|-1])
  }

  lemma {:induction false} SplitAtComma(a: string, rest: string)
    ensures Split(a + ("," + rest)) == Split(a) + Split(rest)
  {
    var s := a + ("," + rest);
    if a == "" {
      assert s == "," + rest && s[1..] == rest;
    } else {
      assert s[0] == a[0] && s[1..] == a[1..] + ("," + rest);
      SplitAtComma(a[1..], rest);
    }
  }

  lemma {:induction false} SplitWithoutComma(a: string)
    requires ',' !in a
    ensures Split(a) == [a]
  {
    if a != "" {
      SplitWithoutComma(a[1..]);
      assert [a[0]] + a[1..] == a;
    }
  }

  lemma {:induction false} PartsHoldNoComma(s: string)
    ensures forall p <- Split(s) :: ',' !in p
  {
    if s != "" {
      PartsHoldNoComma(s[1..]);
      var rest := Split(s[1..]);
      assert rest[0] in rest && forall p <- rest[1..] :: p in rest;
    }
  }

  lemma {:induction false} StripsLeft(s: string)
    ensures var t := StripLeft(s);
            (t != "" ==> !IsSpace(t[0])) && StripLeft(t) == t && forall c <- t :: c in s
  {
    if s != "" && IsSpace(s[0]) {
      StripsLeft(s[1..]);
      assert forall c <- s[1..] :: c in s;
    }
  }

  lemma {:induction false} StripsRight(s: string)
    ensures var t := StripRight(s);
            StripRight(t) == t && (t != "" ==> t[0] == s[0]) && forall c <- t :: c in s
  {
    if s != "" && IsSpace(s[|s|-1]) {
      StripsRight(s[..|s|-1]);
      assert forall c <- s[..|s|-1] :: c in s;
    }
  }

  lemma {:induction false} StripRightShortens(s: string)
    ensures |StripRight(s)| <= |s|
  {
    if s != "" && IsSpace(s[|s|-1]) {
      StripRightShortens(s[..|s|-1]);
    }
  }

  predicate IsBlank(s: string) { forall i :: 0 <= i < |s| ==> IsSpace(s[i]) }

  /** Stripping takes the white space around a text, all of it and nothing else. */
  lemma {:induction false} StripTakesTheSpaceAround(s: string)
    ensures exists before, after :: IsBlank(before) && IsBlank(after) && s == before + Strip(s) + after
    ensures Strip(s) != "" ==> !IsSpace(Strip(s)[0]) && !IsSpace(Strip(s)[|Strip(s)|-1])
  {
    var before := LeftSpace(s);
    var after := RightSpace(StripLeft(s));
    StripsLeft(s);
    StripsRight(StripLeft(s));
    assert s == before + (Strip(s) + after) && before + (Strip(s) + after) == before + Strip(s) + after;
  }

  lemma {:induction false} LeftSpace(s: string) returns (before: string)
    ensures IsBlank(before) && s == before + StripLeft(s)
  {
    if s != "" && IsSpace(s[0]) {
      var rest := LeftSpace(s[1..]);
      before := [s[0]] + rest;
      assert s == [s[0]] + s[1..];
    } else {
      before := "";
    }
  }

  lemma {:induction false} RightSpace(s: string) returns (after: string)
    ensures IsBlank(after) && s == StripRight(s) + after
    ensures StripRight(s) != "" ==> !IsSpace(StripRight(s)[|StripRight(s)|-1])
  {
    if s != "" && IsSpace(s[|s|-1]) {
      var rest := RightSpace(s[..|s|-1]);
      after := rest + [s[|s|-1]];
      assert s == s[..|s|-1] + [s[|s|-1]];
    } else {
      after := "";
    }
  }

  /** A comma-free part, stripped, is an item or blank. */
  lemma {:induction false} StrippedPart(p: string)
    requires ',' !in p
    ensures Strip(p) != "" ==> IsItem(Strip(p))
  {
    StripsLeft(p);
    StripsRight(StripLeft(p));
  }

  lemma {:induction false} KeptAreItems(parts: seq<string>)
    requires forall p <- parts :: ',' !in p
    ensures forall x <- Kept(parts) :: IsItem(x)
  {
    if parts != [] {
      assert parts[0] in parts && forall p <- parts[1..] :: p in parts;
      StrippedPart(parts[0]);
      KeptAreItems(parts[1..]);
    }
  }

  /** Whatever is parsed, the items hold no comma. */
  lemma {:induction false} ParsedAreItems(value: string)
    ensures forall x <- ParseItems(value) :: IsItem(x)
  {
    PartsHoldNoComma(value);
    KeptAreItems(Split(value));
  }

  lemma {:induction false} KeptOfBoth(a: seq<string>, b: seq<string>)
    ensures Kept(a + b) == Kept(a) + Kept(b)
  {
    if a == [] {
      assert a + b == b;
    } else {
      assert (a + b)[0] == a[0] && (a + b)[1..] == a[1..] + b;
      KeptOfBoth(a[1..], b);
    }
  }

  lemma {:induction false} LeadingSpaceIsStripped(s: string)
    ensures ParseItems(" " + s) == ParseItems(s)
  {}

  /** A stripped text is read back as the one item it is exactly when it holds no comma. */
  lemma {:induction false} OnlyCommasSplit(x: string)
    requires IsStripped(x)
    ensures ParseItems(x) == [x] <==> ',' !in x
  {
    if ',' in x {
      ParsedAreItems(x);
      assert [x][0] in [x];
    } else {
      SplitWithoutComma(x);
      assert Kept([x]) == [x] + Kept([]);
    }
  }

  lemma {:induction false} FlatInFront(x: string, texts: seq<string>)
    ensures Flat([x] + texts) == ParseItems(x) + Flat(texts)
  {
    var all := [x] + texts;
    if texts == [] {
      assert all == [x] && [x][..0] == [];
    } else {
      assert all[..|all|-1] == [x] + texts[..|texts|-1];
      FlatInFront(x, texts[..|texts|-1]);
      Associates(ParseItems(x), Flat(texts[..|texts|-1]), ParseItems(texts[|texts|-1]));
    }
  }

  /** Joined texts are read back as the items of each. */
  lemma {:induction false} ParseOfJoin(texts: seq<string>)
    ensures ParseItems(Join(texts)) == Flat(texts)
  {
    if texts == [] {
      assert Split("") == [""];
    } else {
      FlatInFront(texts[0], texts[1..]);
      assert [texts[0]] + texts[1..] == texts;
      if |texts| == 1 {
        assert Flat(texts[1..]) == [];
      } else {
        var x, rest := texts[0], Join(texts[1..]);
        assert ", " + rest == "," + (" " + rest);
        SplitAtComma(x, " " + rest);
        KeptOfBoth(Split(x), Split(" " + rest));
        LeadingSpaceIsStripped(rest);
        ParseOfJoin(texts[1..]);
      }
    }
  }

  lemma {:induction false} NextFlat(front: seq<string>, last: string)
    requires Flat(front) == front && ParseItems(last) == [last]
    ensures Flat(front + [last]) == front + [last]
  {
    assert (front + [last])[..|front|] == front;
  }

  lemma {:induction false} FlatOfItems(items: seq<string>)
    requires forall x <- items :: IsItem(x)
    ensures Flat(items) == items
  {
    if items != [] {
      var front, last := items[..|items|-1], items[|items|-1];
      assert front + [last] == items;
      assert IsItem(last) && forall x <- front :: IsItem(x);
      FlatOfItems(front);
      OnlyCommasSplit(last);
      NextFlat(front, last);
    }
  }

  /** Parsing undoes joining exactly for items, that is, for lists of stripped texts without commas. */
  lemma {:induction false} ParseUndoesJoin(items: seq<string>)
    ensures ParseItems(Join(items)) == items <==> forall x <- items :: IsItem(x)
  {
    ParseOfJoin(items);
    if forall x <- items :: IsItem(x) {
      FlatOfItems(items);
    }
    ParsedAreItems(Join(items));
  }

  /** The distinct items in the order they first arrived. */
  function FirstArrivals(items: seq<string>): seq<string> {
    if items == [] then []
    else
      var earlier, last := FirstArrivals(items[..|items|-1]), items[|items|-1];
      if last in earlier then earlier else earlier + [last]
  }

  lemma {:induction false} FirstArrivalsAreTheItems(items: seq<string>)
    ensures Distinct(FirstArrivals(items)) && forall x :: x in FirstArrivals(items) <==> x in items
    ensures FirstArrivals(items) == [] <==> items == []
  {
    if items != [] {
      var front := items[..|items|-1];
      FirstArrivalsAreTheItems(front);
      assert items == front + [items[|items|-1]];
    }
  }

  /** What is left of texts that arrive one by one, when a text listed already adds nothing. */
  function Arrivals(texts: seq<string>): seq<string> {
    if texts == [] then []
    else
      var earlier, last := Arrivals(texts[..|texts|-1]), texts[|texts|-1];
      if last in earlier then earlier else earlier + ParseItems(last)
  }

  lemma {:induction false} ArrivalsAreItems(texts: seq<string>)
    ensures forall x <- Arrivals(texts) :: IsItem(x)
  {
    if texts != [] {
      ArrivalsAreItems(texts[..|texts|-1]);
      ParsedAreItems(texts[|texts|-1]);
    }
  }

  /** These are the distinct texts exactly when none of the texts holds a comma. */
  lemma {:induction false} ArrivalsAreTheFirst(texts: seq<string>)
    requires forall x <- texts :: IsStripped(x)
    ensures Arrivals(texts) == FirstArrivals(texts) <==> forall x <- texts :: ',' !in x
  {
    FirstArrivalsAreTheItems(texts);
    ArrivalsAreItems(texts);
    if forall x <- texts :: ',' !in x {
      ItemsArrive(texts);
    }
  }

  /** A place written with a comma, mentioned twice, is listed as four items. */
  lemma {:induction false} CommaIsListedTwice()
    ensures var text := "LA, CA";
            IsStripped(text) && Arrivals([text, text]) == ["LA", "CA", "LA", "CA"]
  {
    var text, items := "LA, CA", ["LA", "CA"];
    assert items[1..] == ["CA"] && Join(items) == "LA" + (", " + "CA") == text;
    NoSpaceAround(text);
    NoSpaceAround("LA");
    NoSpaceAround("CA");
    ParseUndoesJoin(items);
    assert |text| != |"LA"| && |text| != |"CA"|;
    ArriveTwice(text, items);
  }

  lemma {:induction false} NoSpaceAround(s: string)
    requires s != "" && !IsSpace(s[0]) && !IsSpace(s[|s|-1])
    ensures IsStripped(s)
  {}

  lemma {:induction false} ArriveTwice(text: string, items: seq<string>)
    requires ParseItems(text) == items && text !in items
    ensures Arrivals([text, text]) == items + items
  {
    assert [text, text][..1] == [text] && [text][..0] == [];
    assert Arrivals([text]) == [] + items;
  }

  lemma {:induction false} ItemsArrive(texts: seq<string>)
    requires forall x <- texts :: IsItem(x)
    ensures Arrivals(texts) == FirstArrivals(texts)
  {
    if texts != [] {
      assert texts[|texts|-1] in texts && forall x <- texts[..|texts|-1] :: x in texts;
      ItemsArrive(texts[..|texts|-1]);
      OnlyCommasSplit(texts[|texts|-1]);
    }
  }
}
