/**
 Finding one JSON text inside prose (json_utils.py): the string-aware bracket
 scanner, the truncation repair and the cascade that tries them in turn. The JSON
 parser itself is the parameter loads.
 */
module EmbeddedJson {
  import opened Basics
  import CommaText
  import opened JsonText

  // ---------------------------------------------------------------------
  // The scanner
  // ---------------------------------------------------------------------

  /** Scanner state: bracket depth, inside a string, right behind a backslash. */
  datatype Scan = Scan(depth: int, inString: bool, escape: bool)

  const START := Scan(0, false, false)

  function Step(s: Scan, c: char, opener: char, closer: char): Scan {
    if s.inString then
      if s.escape then s.(escape := false)
      else if c == '\\' then s.(escape := true)
      else if c == '"' then s.(inString := false)
      else s
    else if c == '"' then s.(inString := true)
    else if c == opener then s.(depth := s.depth + 1)
    else if c == closer then s.(depth := s.depth - 1)
    else s
  }

  function Run(s: Scan, text: string, opener: char, closer: char): Scan {
    if text == "" then s
    else Step(Run(s, text[..|text|-1], opener, closer), text[|text|-1], opener, closer)
  }

  /** The text ends with the closing bracket that brings the depth back to zero. */
  predicate Closes(s: Scan, text: string, opener: char, closer: char) {
    text != "" && text[|text|-1] == closer
    && !Run(s, text[..|text|-1], opener, closer).inString && Run(s, text, opener, closer).depth == 0
  }

  /** r is the shortest prefix of text that closes, or None if none does. */
  predicate ShortestBlock(text: string, opener: char, closer: char, r: Option<string>) {
    match r
    case Some(b) => b <= text && Closes(START, b, opener, closer)
                    && forall n :: 0 <= n < |b| ==> !Closes(START, b[..n], opener, closer)
    case None => forall n :: 0 <= n <= |text| ==> !Closes(START, text[..n], opener, closer)
  }

  method ExtractBalancedBlock(content: string, start: nat, opener: char, closer: char) returns (r: Option<string>)
    requires start <= |content| && opener != closer && opener != '"' && closer != '"'
    ensures ShortestBlock(content[start..], opener, closer, r)
  {
    var depth, inString, escape := 0, false, false;
    var text := content[start..];
    for index := start to |content|
      invariant Run(START, text[..index-start], opener, closer) == Scan(depth, inString, escape)
      invariant forall n :: 0 <= n <= index - start ==> !Closes(START, text[..n], opener, closer)
    {
      var c := content[index];
      var seen := text[..index-start+1];
      assert seen[..|seen|-1] == text[..index-start] && seen[|seen|-1] == c;
      if inString {
        if escape {
          escape := false;
          continue;
        }
        if c == '\\' {
          escape := true;
          continue;
        }
        if c == '"' {
          inString := false;
        }
        continue;
      }
      if c == '"' {
        inString := true;
        continue;
      }
      if c == opener {
        depth := depth + 1;
        continue;
      }
      if c != closer {
        continue;
      }
      depth := depth - 1;
      if depth == 0 {
        assert content[start..index+1] == seen;
        assert forall n :: 0 <= n < |seen| ==> seen[..n] == text[..n];
        return Some(content[start..index+1]);
      }
    }
    return None;
  }

  // ---------------------------------------------------------------------
  // The first bracket
  // ---------------------------------------------------------------------

  predicate NoBracket(s: string) { '{' !in s && '[' !in s }

  /** The index of the first c, or -1. */
  function Find(s: string, c: char): (i: int)
    ensures -1 <= i < |s|
    ensures i >= 0 ==> s[i] == c && c !in s[..i]
    ensures i < 0 ==> c !in s
  {
    if s == "" then -1
    else if s[0] == c then 0
    else
      var i := Find(s[1..], c);
      if i < 0 then -1
      else
        assert s[..i+1] == [s[0]] + s[1..][..i];
        i + 1
  }

  function FindFirstJsonStart(content: string): (start: int)
    ensures -1 <= start < |content|
    ensures start >= 0 ==> content[start] in "{[" && NoBracket(content[..start])
    ensures start < 0 ==> NoBracket(content)
  {
    var objectStart, arrayStart := Find(content, '{'), Find(content, '[');
    if objectStart < 0 then arrayStart
    else if arrayStart < 0 then objectStart
    else if objectStart <= arrayStart then
      assert content[..objectStart] == content[..arrayStart][..objectStart];
      objectStart
    else
      assert content[..arrayStart] == content[..objectStart][..arrayStart];
      arrayStart
  }

  /** r is the block the extraction must return: the shortest closing one from the first bracket on. */
  predicate IsTopLevelBlock(content: string, r: Option<string>) {
    var start := FindFirstJsonStart(content);
    if start < 0 then r == None
    else ShortestBlock(content[start..], content[start], if content[start] == '{' then '}' else ']', r)
  }

  method ExtractTopLevelJsonBlock(content: string) returns (r: Option<string>)
    ensures IsTopLevelBlock(content, r)
  {
    var start := FindFirstJsonStart(content);
    if start < 0 {
      return None;
    }
    var opener := content[start];
    var closer := if opener == '{' then '}' else ']';
    r := ExtractBalancedBlock(content, start, opener, closer);
  }

  /** The extraction is a function of its text. */
  lemma {:induction false} TopLevelBlockIsUnique(content: string, a: Option<string>, b: Option<string>)
    requires IsTopLevelBlock(content, a) && IsTopLevelBlock(content, b)
    ensures a == b
  {
    var start := FindFirstJsonStart(content);
    if start >= 0 {
      var text, opener := content[start..], content[start];
      var closer := if opener == '{' then '}' else ']';
      ShortestBlockIsUnique(text, opener, closer, a, b);
    }
  }

  lemma {:induction false} ShortestBlockIsUnique(text: string, opener: char, closer: char, a: Option<string>,
                                                 b: Option<string>)
    requires ShortestBlock(text, opener, closer, a) && ShortestBlock(text, opener, closer, b)
    ensures a == b
  {
    if a.Some? {
      assert text[..|a.value|] == a.value;
    }
    if b.Some? {
      assert text[..|b.value|] == b.value;
    }
    if a.Some? && b.Some? {
      assert |a.value| <= |b.value| ==> b.value[..|a.value|] == a.value;
      assert |b.value| <= |a.value| ==> a.value[..|b.value|] == b.value;
    }
  }

  // ---------------------------------------------------------------------
  // The scanner on printed JSON
  // ---------------------------------------------------------------------

  lemma {:induction false} RunSplit(s: Scan, a: string, b: string, opener: char, closer: char)
    ensures Run(s, a + b, opener, closer) == Run(Run(s, a, opener, closer), b, opener, closer)
  {
    if b == "" {
      assert a + b == a;
    } else {
      RunSplit(s, a, b[..|b|-1], opener, closer);
      assert (a + b)[..|a + b|-1] == a + b[..|b|-1];
    }
  }

  /** The brackets of objects or those of arrays. */
  predicate Brackets(opener: char, closer: char) {
    (opener == '{' && closer == '}') || (opener == '[' && closer == ']')
  }

  /** Outside strings, at a positive depth. */
  predicate Inside(s: Scan) { s.depth >= 1 && !s.inString && !s.escape }

  /** From s, no prefix of text closes. */
  predicate Quiet(s: Scan, text: string, opener: char, closer: char) {
    forall n :: 0 <= n <= |text| ==> !Closes(s, text[..n], opener, closer)
  }

  /** Scanning text from s closes nothing and comes back to s. */
  predicate Neutral(s: Scan, text: string, opener: char, closer: char) {
    Run(s, text, opener, closer) == s && Quiet(s, text, opener, closer)
  }

  lemma {:induction false} QuietJoin(s: Scan, a: string, b: string, opener: char, closer: char)
    requires Quiet(s, a, opener, closer) && Quiet(Run(s, a, opener, closer), b, opener, closer)
    ensures Quiet(s, a + b, opener, closer)
  {
    forall n | 0 <= n <= |a + b| ensures !Closes(s, (a + b)[..n], opener, closer) {
      if n <= |a| {
        assert (a + b)[..n] == a[..n];
      } else {
        var m := n - |a|;
        assert (a + b)[..n] == a + b[..m];
        assert (a + b[..m])[..n-1] == a + b[..m-1];
        assert b[..m][..m-1] == b[..m-1];
        RunSplit(s, a, b[..m], opener, closer);
        RunSplit(s, a, b[..m-1], opener, closer);
        assert !Closes(Run(s, a, opener, closer), b[..m], opener, closer);
      }
    }
  }

  lemma {:induction false} NeutralJoin(s: Scan, a: string, b: string, opener: char, closer: char)
    requires Neutral(s, a, opener, closer) && Neutral(s, b, opener, closer)
    ensures Neutral(s, a + b, opener, closer)
  {
    RunSplit(s, a, b, opener, closer);
    QuietJoin(s, a, b, opener, closer);
  }

  /** Characters that are no quotes and no brackets of the scanned kind. */
  predicate Harmless(text: string, opener: char, closer: char) {
    forall c <- text :: c != '"' && c != opener && c != closer
  }

  /** The scan of text stands still: no character of it moves the state. */
  lemma {:induction false} StandingStill(s: Scan, text: string, opener: char, closer: char)
    requires forall c <- text :: Step(s, c, opener, closer) == s && (s.inString || c != closer)
    ensures Neutral(s, text, opener, closer)
  {
    if text == "" {
      assert text[..0] == "";
    } else {
      var front := text[..|text|-1];
      assert forall c <- front :: c in text;
      StandingStill(s, front, opener, closer);
      assert text[|text|-1] in text;
      forall n | 0 <= n <= |text| ensures !Closes(s, text[..n], opener, closer) {
        assert n < |text| ==> text[..n] == front[..n];
        assert n == |text| ==> text[..n] == text;
      }
    }
  }

  lemma {:induction false} HarmlessIsNeutral(s: Scan, text: string, opener: char, closer: char)
    requires !s.inString && Harmless(text, opener, closer)
    ensures Neutral(s, text, opener, closer)
  {
    StandingStill(s, text, opener, closer);
  }

  lemma {:induction false} OneChar(s: Scan, c: char, opener: char, closer: char)
    ensures Run(s, [c], opener, closer) == Step(s, c, opener, closer)
    ensures (c == closer ==> s.inString || Step(s, c, opener, closer).depth != 0) ==> Quiet(s, [c], opener, closer)
  {}

  lemma {:induction false} ItemIsNeutral(s: Scan, i: StrItem, opener: char, closer: char)
    requires s.inString && !s.escape && ValidItem(i)
    ensures Neutral(s, PrintItem(i), opener, closer)
  {
    match i
    case Plain(c) =>
      OneChar(s, c, opener, closer);
    case Escape(c) =>
      EscapedChar(s, c, opener, closer);
    case Unicode(hex) =>
      EscapedChar(s, 'u', opener, closer);
      StandingStill(s, hex, opener, closer);
      NeutralJoin(s, "\\u", hex, opener, closer);
  }

  lemma {:induction false} EscapedChar(s: Scan, c: char, opener: char, closer: char)
    requires s.inString && !s.escape
    ensures Neutral(s, ['\\', c], opener, closer)
  {
    OneChar(s, '\\', opener, closer);
    OneChar(s.(escape := true), c, opener, closer);
    RunSplit(s, ['\\'], [c], opener, closer);
    QuietJoin(s, ['\\'], [c], opener, closer);
    assert ['\\'] + [c] == ['\\', c];
  }

  /** Inside a string nothing closes, whatever the characters. */
  lemma {:induction false} ItemsAreNeutral(s: Scan, items: seq<StrItem>, opener: char, closer: char)
    requires s.inString && !s.escape && ValidItems(items)
    ensures Neutral(s, PrintItems(items), opener, closer)
  {
    if items == [] {
      StandingStill(s, "", opener, closer);
    } else {
      ItemIsNeutral(s, items[0], opener, closer);
      ItemsAreNeutral(s, items[1..], opener, closer);
      NeutralJoin(s, PrintItem(items[0]), PrintItems(items[1..]), opener, closer);
    }
  }

  /** An opening character, neutral text behind it and a closing character that undoes the first. */
  lemma {:induction false} Enclosed(s: Scan, open: char, text: string, close: char, opener: char, closer: char)
    requires var inner := Step(s, open, opener, closer);
             Neutral(inner, text, opener, closer) && Step(inner, close, opener, closer) == s
             && (open == closer ==> s.inString) && (close == closer ==> inner.inString || s.depth != 0)
    ensures Neutral(s, [open] + text + [close], opener, closer)
  {
    var inner := Step(s, open, opener, closer);
    OneChar(s, open, opener, closer);
    OneChar(inner, close, opener, closer);
    RunSplit(s, [open], text, opener, closer);
    QuietJoin(s, [open], text, opener, closer);
    RunSplit(s, [open] + text, [close], opener, closer);
    QuietJoin(s, [open] + text, [close], opener, closer);
  }

  lemma {:induction false} StringIsNeutral(s: Scan, items: seq<StrItem>, opener: char, closer: char)
    requires Inside(s) && ValidItems(items) && Brackets(opener, closer)
    ensures Neutral(s, PrintString(items), opener, closer)
  {
    ItemsAreNeutral(s.(inString := true), items, opener, closer);
    Enclosed(s, '"', PrintItems(items), '"', opener, closer);
  }

  lemma {:induction false} BlankIsNeutral(s: Scan, text: string, opener: char, closer: char)
    requires Inside(s) && Brackets(opener, closer) && (IsBlank(text) || IsToken(text) || text == "," || text == ":")
    ensures Neutral(s, text, opener, closer)
  {
    HarmlessIsNeutral(s, text, opener, closer);
  }

  /** Inside a bracketed text, any JSON value leaves the scanner where it was. */
  lemma {:induction false} ValueIsNeutral(s: Scan, t: Text, opener: char, closer: char)
    requires Inside(s) && Valid(t) && Brackets(opener, closer)
    ensures Neutral(s, Print(t), opener, closer)
    decreases t, 1
  {
    match t
    case Word(token) => BlankIsNeutral(s, token, opener, closer);
    case Str(items) => StringIsNeutral(s, items, opener, closer);
    case Arr(_, _) =>
      BodyIsNeutral(Step(s, '[', opener, closer), t, opener, closer);
      Enclosed(s, '[', Body(t), ']', opener, closer);
    case Obj(_, _) =>
      BodyIsNeutral(Step(s, '{', opener, closer), t, opener, closer);
      Enclosed(s, '{', Body(t), '}', opener, closer);
  }

  /** What an array or an object prints between its brackets. */
  function Body(t: Text): string
    requires t.Arr? || t.Obj?
  {
    if t.Arr? then t.lead + PrintElems(t.elems) else t.lead + PrintMembers(t.members)
  }

  lemma {:induction false} BodyIsNeutral(s: Scan, t: Text, opener: char, closer: char)
    requires Inside(s) && Valid(t) && (t.Arr? || t.Obj?) && Brackets(opener, closer)
    ensures Neutral(s, Body(t), opener, closer)
    decreases t, 0
  {
    BlankIsNeutral(s, t.lead, opener, closer);
    if t.Arr? {
      ElemsAreNeutral(s, t.elems, opener, closer);
      NeutralJoin(s, t.lead, PrintElems(t.elems), opener, closer);
    } else {
      MembersAreNeutral(s, t.members, opener, closer);
      NeutralJoin(s, t.lead, PrintMembers(t.members), opener, closer);
    }
  }

  /** A value, white space, and perhaps a comma with white space: what one element adds before the rest. */
  lemma {:induction false} TailIsNeutral(s: Scan, after: string, more: bool, before: string, rest: string,
                                         opener: char, closer: char)
    requires Inside(s) && Brackets(opener, closer) && IsBlank(after) && IsBlank(before)
    requires Neutral(s, rest, opener, closer)
    ensures Neutral(s, after + ((if more then "," + before else "") + rest), opener, closer)
  {
    var sep := if more then "," + before else "";
    HarmlessIsNeutral(s, after, opener, closer);
    HarmlessIsNeutral(s, sep, opener, closer);
    NeutralJoin(s, sep, rest, opener, closer);
    NeutralJoin(s, after, sep + rest, opener, closer);
  }

  lemma {:induction false} ElemsAreNeutral(s: Scan, e: Elems, opener: char, closer: char)
    requires Inside(s) && ValidElems(e) && Brackets(opener, closer)
    ensures Neutral(s, PrintElems(e), opener, closer)
    decreases e
  {
    match e
    case NoElems =>
      StandingStill(s, "", opener, closer);
    case Elem(value, after, before, rest) =>
      ValueIsNeutral(s, value, opener, closer);
      ElemsAreNeutral(s, rest, opener, closer);
      TailIsNeutral(s, after, rest.Elem?, before, PrintElems(rest), opener, closer);
      NeutralJoin(s, Print(value), after + ((if rest.Elem? then "," + before else "") + PrintElems(rest)),
                  opener, closer);
  }

  lemma {:induction false} MembersAreNeutral(s: Scan, m: Members, opener: char, closer: char)
    requires Inside(s) && ValidMembers(m) && Brackets(opener, closer)
    ensures Neutral(s, PrintMembers(m), opener, closer)
    decreases m
  {
    match m
    case NoMembers =>
      StandingStill(s, "", opener, closer);
    case Member(key, preColon, postColon, value, after, before, rest) =>
      StringIsNeutral(s, key, opener, closer);
      HarmlessIsNeutral(s, preColon + ":" + postColon, opener, closer);
      NeutralJoin(s, PrintString(key), preColon + ":" + postColon, opener, closer);
      ValueIsNeutral(s, value, opener, closer);
      MembersAreNeutral(s, rest, opener, closer);
      TailIsNeutral(s, after, rest.Member?, before, PrintMembers(rest), opener, closer);
      var tail := after + ((if rest.Member? then "," + before else "") + PrintMembers(rest));
      NeutralJoin(s, Print(value), tail, opener, closer);
      NeutralJoin(s, PrintString(key) + (preColon + ":" + postColon), Print(value) + tail, opener, closer);
  }

  // ---------------------------------------------------------------------
  // Extraction is exact
  // ---------------------------------------------------------------------

  function Opener(v: Text): char { if v.Arr? then '[' else '{' }

  function Closer(v: Text): char { if v.Arr? then ']' else '}' }

  lemma {:induction false} PrintedForm(v: Text)
    requires v.Arr? || v.Obj?
    ensures Print(v) == [Opener(v)] + Body(v) + [Closer(v)]
  {}

  /** Around a neutral body a pair of brackets closes for the first time at the end. */
  lemma {:induction false} EnclosedClosesAtItsEnd(body: string, opener: char, closer: char)
    requires Brackets(opener, closer) && Neutral(Scan(1, false, false), body, opener, closer)
    ensures var text := [opener] + body + [closer];
            Closes(START, text, opener, closer)
            && forall n :: 0 <= n < |text| ==> !Closes(START, text[..n], opener, closer)
  {
    var front := [opener] + body;
    var text := front + [closer];
    assert text[..|text|-1] == front;
    OneChar(START, opener, opener, closer);
    RunSplit(START, [opener], body, opener, closer);
    QuietJoin(START, [opener], body, opener, closer);
    forall n | 0 <= n < |text| ensures !Closes(START, text[..n], opener, closer) {
      assert text[..n] == front[..n];
    }
  }

  /** A printed object or array closes for the first time at its very end. */
  lemma {:induction false} PrintedClosesAtItsEnd(v: Text)
    requires Valid(v) && (v.Arr? || v.Obj?)
    ensures var opener, closer := Print(v)[0], Print(v)[|Print(v)|-1];
            Brackets(opener, closer) && Closes(START, Print(v), opener, closer)
            && forall n :: 0 <= n < |Print(v)| ==> !Closes(START, Print(v)[..n], opener, closer)
  {
    PrintedForm(v);
    BodyIsNeutral(Scan(1, false, false), v, Opener(v), Closer(v));
    EnclosedClosesAtItsEnd(Body(v), Opener(v), Closer(v));
  }

  /** The scan starts at the value exactly when the prose before it holds no bracket. */
  lemma {:induction false} StartsAtTheValue(prefix: string, v: Text, suffix: string)
    requires v.Arr? || v.Obj?
    ensures FindFirstJsonStart(prefix + Print(v) + suffix) == |prefix| <==> NoBracket(prefix)
  {
    var content := prefix + Print(v) + suffix;
    assert content[|prefix|] in "{[" && content[..|prefix|] == prefix;
    var start := FindFirstJsonStart(content);
    assert 0 <= start < |prefix| ==> prefix[start] == content[start];
  }

  /** Whatever bracket-free prose stands before it and anything behind it, a printed value is extracted exactly. */
  lemma {:induction false} ExtractsExactlyThePrintedValue(prefix: string, v: Text, suffix: string, r: Option<string>)
    requires Valid(v) && (v.Arr? || v.Obj?) && NoBracket(prefix)
    ensures IsTopLevelBlock(prefix + Print(v) + suffix, r) <==> r == Some(Print(v))
  {
    var content, block := prefix + Print(v) + suffix, Print(v);
    PrintedClosesAtItsEnd(v);
    StartsAtTheValue(prefix, v, suffix);
    assert content[|prefix|] == block[0] && block <= content[|prefix|..];
    if IsTopLevelBlock(content, r) {
      TopLevelBlockIsUnique(content, r, Some(block));
    }
  }

  // ---------------------------------------------------------------------
  // Fenced blocks
  // ---------------------------------------------------------------------

  /** str.splitlines, with the newline as the only line separator. */
  function SplitLines(s: string): (lines: seq<string>)
    ensures s != "" ==> lines != []
  {
    if s == "" then []
    else if s[0] == '\n' then [""] + SplitLines(s[1..])
    else if |s| == 1 then [s]
    else
      var rest := SplitLines(s[1..]);
      [[s[0]] + rest[0]] + rest[1..]
  }

  function JoinLines(lines: seq<string>): string {
    if lines == [] then "" else if |lines| == 1 then lines[0] else lines[0] + ("\n" + JoinLines(lines[1..]))
  }

  predicate OneLine(s: string) { forall i :: 0 <= i < |s| ==> s[i] != '\n' }

  lemma {:induction false} SplitAtNewline(line: string, rest: string)
    requires OneLine(line)
    ensures SplitLines(line + ("\n" + rest)) == [line] + SplitLines(rest)
  {
    var s := line + ("\n" + rest);
    if line == "" {
      assert s[0] == '\n' && s[1..] == rest;
    } else {
      assert s[0] == line[0] && s[1..] == line[1..] + ("\n" + rest);
      SplitAtNewline(line[1..], rest);
      assert [line[0]] + line[1..] == line;
    }
  }

  lemma {:induction false} SplitOneLine(line: string)
    requires OneLine(line) && line != ""
    ensures SplitLines(line) == [line]
  {
    if |line| > 1 {
      SplitOneLine(line[1..]);
      assert [line[0]] + line[1..] == line;
    }
  }

  /** Splitting undoes joining, unless the last line is empty. */
  lemma {:induction false} SplitUndoesJoin(lines: seq<string>)
    requires (forall l <- lines :: OneLine(l)) && (lines != [] ==> lines[|lines|-1] != "")
    ensures SplitLines(JoinLines(lines)) == lines
  {
    if |lines| == 1 {
      assert OneLine(lines[0]);
      SplitOneLine(lines[0]);
    } else if lines != [] {
      assert OneLine(lines[0]) && forall l <- lines[1..] :: l in lines;
      SplitAtNewline(lines[0], JoinLines(lines[1..]));
      SplitUndoesJoin(lines[1..]);
    }
  }

  predicate IsFence(line: string) { |line| >= 3 && line[..3] == "```" }

  /** A document of prose and closed fences; the optional last part is a fence that never closes. */
  datatype Document =
    | Prose(lines: seq<string>)
    | Fenced(prose: seq<string>, open: string, body: seq<string>, close: string, rest: Document)
    | Unclosed(prose: seq<string>, open: string, body: seq<string>)

  ghost predicate ProperDocument(d: Document) {
    match d
    case Prose(lines) => forall l <- lines :: !IsFence(l)
    case Fenced(prose, open, body, close, rest) =>
      (forall l <- prose + body :: !IsFence(l)) && IsFence(open) && IsFence(close) && ProperDocument(rest)
    case Unclosed(prose, open, body) => (forall l <- prose + body :: !IsFence(l)) && IsFence(open)
  }

  function Lines(d: Document): seq<string> {
    match d
    case Prose(lines) => lines
    case Fenced(prose, open, body, close, rest) => prose + ([open] + (body + ([close] + Lines(rest))))
    case Unclosed(prose, open, body) => prose + ([open] + body)
  }

  function Bodies(d: Document): seq<seq<string>> {
    if d.Fenced? then [d.body] + Bodies(d.rest) else []
  }

  /** What is left to collect, read from the front; buf is the open block's body so far. */
  function Collected(lines: seq<string>, inside: bool, buf: seq<string>): seq<seq<string>> {
    if lines == [] then []
    else if IsFence(lines[0]) then
      if inside then [buf] + Collected(lines[1..], false, []) else Collected(lines[1..], true, [])
    else Collected(lines[1..], inside, if inside then buf + [lines[0]] else buf)
  }

  /** Each body as one stripped text. */
  function BodyTexts(bodies: seq<seq<string>>): (texts: seq<string>)
    ensures |texts| == |bodies|
    ensures forall k :: 0 <= k < |texts| ==> texts[k] == CommaText.Strip(JoinLines(bodies[k]))
  {
    if bodies == [] then [] else [CommaText.Strip(JoinLines(bodies[0]))] + BodyTexts(bodies[1..])
  }

  function FencedTexts(content: string): seq<string> { BodyTexts(Collected(SplitLines(content), false, [])) }

  method ExtractFencedBlocks(content: string) returns (blocks: seq<string>)
    ensures blocks == FencedTexts(content)
  {
    blocks := [];
    var lines := SplitLines(content);
    var inside, buf := false, [];
    for i := 0 to |lines|
      invariant inside || buf == []
      invariant blocks + BodyTexts(Collected(lines[i..], inside, buf)) == FencedTexts(content)
    {
      var line := lines[i];
      assert lines[i..][1..] == lines[i+1..];
      if IsFence(line) {
        if inside {
          NextBody(blocks, buf, Collected(lines[i+1..], false, []));
          blocks := blocks + [CommaText.Strip(JoinLines(buf))];
          buf := [];
          inside := false;
        } else {
          inside := true;
          buf := [];
        }
      } else if inside {
        buf := buf + [line];
      }
    }
  }

  lemma {:induction false} NextBody(blocks: seq<string>, body: seq<string>, rest: seq<seq<string>>)
    ensures blocks + BodyTexts([body] + rest) == blocks + [CommaText.Strip(JoinLines(body))] + BodyTexts(rest)
  {
    assert ([body] + rest)[1..] == rest;
  }

  lemma {:induction false} PlainLines(plain: seq<string>, more: seq<string>, inside: bool, buf: seq<string>)
    requires forall l <- plain :: !IsFence(l)
    ensures Collected(plain + more, inside, buf) == Collected(more, inside, if inside then buf + plain else buf)
  {
    if plain == [] {
      assert plain + more == more;
      assert buf + plain == buf;
    } else {
      assert plain[0] in plain && (plain + more)[1..] == plain[1..] + more;
      assert forall l <- plain[1..] :: l in plain;
      var buf' := if inside then buf + [plain[0]] else buf;
      PlainLines(plain[1..], more, inside, buf');
      assert buf + [plain[0]] + plain[1..] == buf + plain;
    }
  }

  /** Every closed fence yields its body, in order; prose and an unclosed fence yield nothing. */
  lemma {:induction false} FencedBodiesAreFound(d: Document)
    requires ProperDocument(d)
    ensures Collected(Lines(d), false, []) == Bodies(d)
  {
    match d
    case Prose(lines) =>
      PlainLines(lines, [], false, []);
      assert lines + [] == lines;
    case Fenced(prose, open, body, close, rest) =>
      assert (forall l <- prose :: l in prose + body) && (forall l <- body :: l in prose + body);
      var behind := [open] + (body + ([close] + Lines(rest)));
      PlainLines(prose, behind, false, []);
      assert behind[1..] == body + ([close] + Lines(rest));
      PlainLines(body, [close] + Lines(rest), true, []);
      assert ([close] + Lines(rest))[1..] == Lines(rest) && [] + body == body;
      FencedBodiesAreFound(rest);
    case Unclosed(prose, open, body) =>
      assert (forall l <- prose :: l in prose + body) && (forall l <- body :: l in prose + body);
      PlainLines(prose, [open] + body, false, []);
      assert ([open] + body)[1..] == body && body + [] == body;
      PlainLines(body, [], true, []);
  }

  // ---------------------------------------------------------------------
  // Truncation repair and the cascade
  // ---------------------------------------------------------------------

  /** What json.loads makes of a text: nothing, an object or some other value. */
  datatype Loaded<V> = Rejected | Dict(value: V) | Other(value: V)

  /** The index of the last c before position end, or -1. */
  function FindLast(s: string, c: char, end: nat): (i: int)
    requires end <= |s|
    ensures -1 <= i < end
    ensures i >= 0 ==> s[i] == c
    ensures forall j :: i < j < end ==> s[j] != c
  {
    if end == 0 then -1 else if s[end-1] == c then end - 1 else FindLast(s, c, end - 1)
  }

  /** The candidate that ends at position last loads as an object. */
  predicate LoadsAt<V(!new)>(content: string, loads: string -> Loaded<V>, start: nat, last: nat) {
    start < last < |content| && content[last] == '}' && loads(content[start..last+1]).Dict?
  }

  /** r is the longest candidate from the first bracket, a brace, that loads as an object. */
  ghost predicate IsLongestObject<V(!new)>(content: string, loads: string -> Loaded<V>, r: Option<string>) {
    var start := FindFirstJsonStart(content);
    if start < 0 || content[start] != '{' then r == None
    else
      match r
      case Some(c) => exists last: nat {:trigger LoadsAt(content, loads, start, last)} ::
        LoadsAt(content, loads, start, last) && c == content[start..last+1]
        && forall later: nat :: later > last ==> !LoadsAt(content, loads, start, later)
      case None => forall last: nat :: !LoadsAt(content, loads, start, last)
  }

  method TruncationRepair<V(!new)>(content: string, loads: string -> Loaded<V>) returns (r: Option<string>)
    ensures IsLongestObject(content, loads, r)
  {
    var start := FindFirstJsonStart(content);
    if start < 0 || content[start] != '{' {
      return None;
    }
    var last := FindLast(content, '}', |content|);
    while last > start
      invariant -1 <= last < |content|
      invariant last >= 0 ==> content[last] == '}'
      invariant forall later: nat :: later > last ==> !LoadsAt(content, loads, start, later)
    {
      var candidate := content[start..last+1];
      if loads(candidate).Dict? {
        assert LoadsAt(content, loads, start, last);
        return Some(candidate);
      }
      last := FindLast(content, '}', last);
    }
    return None;
  }

  function Value<V(!new)>(l: Loaded<V>): Option<V> { if l.Rejected? then None else Some(l.value) }

  /** r is what the text loads to, or failing that its embedded block. */
  ghost predicate Yields<V(!new)>(text: string, loads: string -> Loaded<V>, r: Option<V>) {
    exists block :: IsTopLevelBlock(text, block) &&
      r == if !loads(text).Rejected? || block == None then Value(loads(text)) else Value(loads(block.value))
  }

  /** r is the value of the longest object a truncated text starts with. */
  ghost predicate IsRepair<V(!new)>(text: string, loads: string -> Loaded<V>, r: Option<V>) {
    exists c :: IsLongestObject(text, loads, c) && r == if c == None then None else Value(loads(c.value))
  }

  /** r is the first yield among the texts, or failing all of them the repair of the normalized one. */
  ghost predicate FirstYield<V(!new)>(texts: seq<string>, normalized: string, loads: string -> Loaded<V>,
                                        r: Option<V>)
  {
    if texts == [] then IsRepair(normalized, loads, r)
    else exists a :: Yields(texts[0], loads, a) &&
                     if a.Some? then r == a else FirstYield(texts[1..], normalized, loads, r)
  }

  method TryText<V(!new)>(text: string, loads: string -> Loaded<V>) returns (r: Option<V>)
    ensures Yields(text, loads, r)
  {
    var extracted := ExtractTopLevelJsonBlock(text);
    var whole := loads(text);
    if !whole.Rejected? {
      return Some(whole.value);
    }
    if extracted == None {
      return None;
    }
    var inner := loads(extracted.value);
    return if inner.Rejected? then None else Some(inner.value);
  }

  /** What the cascade reads out of the content: a leading fence and all other fence lines are dropped. */
  function StripMarkdownFence(content: string): string {
    if !IsFence(content) then content else CommaText.Strip(JoinLines(NotFences(SplitLines(content))))
  }

  function NotFences(lines: seq<string>): seq<string> {
    if lines == [] then [] else (if IsFence(lines[0]) then [] else [lines[0]]) + NotFences(lines[1..])
  }

  function Normalized(content: string): string { StripMarkdownFence(CommaText.Strip(content)) }

  /** The texts that are tried, in their order. */
  function Attempts(content: string): seq<string> { [Normalized(content)] + FencedTexts(CommaText.Strip(content)) }

  /** The whole cascade; None is the JSONDecodeError. */
  method ParseEmbeddedJson<V(!new)>(content: string, loads: string -> Loaded<V>) returns (r: Option<V>)
    ensures FirstYield(Attempts(content), Normalized(content), loads, r)
  {
    var normalized := Normalized(content);
    var blocks := ExtractFencedBlocks(CommaText.Strip(content));
    var texts := [normalized] + blocks;
    for i := 0 to |texts|
      invariant forall v :: FirstYield(texts[i..], normalized, loads, v) ==> FirstYield(texts, normalized, loads, v)
    {
      assert texts[i..][1..] == texts[i+1..];
      r := TryText(texts[i], loads);
      if r.Some? {
        assert FirstYield(texts[i..], normalized, loads, r);
        return;
      }
    }
    var repaired := TruncationRepair(normalized, loads);
    if repaired == None {
      r := None;
    } else {
      r := Some(loads(repaired.value).value);
    }
    assert IsRepair(normalized, loads, r);
  }

  // ---------------------------------------------------------------------
  // What the cascade returns
  // ---------------------------------------------------------------------

  /** Neither the text nor the block in it loads. */
  ghost predicate Rejects<V(!new)>(text: string, loads: string -> Loaded<V>) {
    loads(text).Rejected?
    && forall block :: IsTopLevelBlock(text, block) && block.Some? ==> loads(block.value).Rejected?
  }

  /** No text from the first bracket, a brace, to a closing brace loads as an object. */
  ghost predicate Unrepairable<V(!new)>(text: string, loads: string -> Loaded<V>) {
    var start := FindFirstJsonStart(text);
    start >= 0 && text[start] == '{' ==> forall last: nat :: !LoadsAt(text, loads, start, last)
  }

  lemma {:induction false} YieldsNoneMeansRejects<V(!new)>(text: string, loads: string -> Loaded<V>, r: Option<V>)
    requires Yields(text, loads, r)
    ensures r == None <==> Rejects(text, loads)
  {
    var block :| IsTopLevelBlock(text, block) &&
      r == if !loads(text).Rejected? || block == None then Value(loads(text)) else Value(loads(block.value));
    forall other | IsTopLevelBlock(text, other) ensures other == block {
      TopLevelBlockIsUnique(text, other, block);
    }
  }

  lemma {:induction false} RepairNoneMeansUnrepairable<V(!new)>(text: string, loads: string -> Loaded<V>, r: Option<V>)
    requires IsRepair(text, loads, r)
    ensures r == None <==> Unrepairable(text, loads)
  {
    var c :| IsLongestObject(text, loads, c) && r == if c == None then None else Value(loads(c.value));
    var start := FindFirstJsonStart(text);
    if c.Some? {
      var last: nat :| LoadsAt(text, loads, start, last) && c.value == text[start..last+1];
    }
  }

  /** The cascade fails exactly when every text and every block is rejected and nothing can be repaired. */
  lemma {:induction false} FailureMeansAllRejected<V(!new)>(texts: seq<string>, normalized: string,
                                                            loads: string -> Loaded<V>, r: Option<V>)
    requires FirstYield(texts, normalized, loads, r)
    ensures r == None <==> (forall t <- texts :: Rejects(t, loads)) && Unrepairable(normalized, loads)
  {
    if texts == [] {
      RepairNoneMeansUnrepairable(normalized, loads, r);
    } else {
      var a :| Yields(texts[0], loads, a) && if a.Some? then r == a else FirstYield(texts[1..], normalized, loads, r);
      YieldsNoneMeansRejects(texts[0], loads, a);
      assert texts[0] in texts && forall t :: t in texts <==> t == texts[0] || t in texts[1..];
      if a == None {
        FailureMeansAllRejected(texts[1..], normalized, loads, r);
      }
    }
  }

  /** The first text that is not rejected decides. */
  lemma {:induction false} FirstAcceptedDecides<V(!new)>(texts: seq<string>, normalized: string,
                                                         loads: string -> Loaded<V>, r: Option<V>, k: nat)
    requires FirstYield(texts, normalized, loads, r)
    requires k < |texts| && !Rejects(texts[k], loads) && forall j :: 0 <= j < k ==> Rejects(texts[j], loads)
    ensures r.Some? && Yields(texts[k], loads, r)
  {
    var a :| Yields(texts[0], loads, a) && if a.Some? then r == a else FirstYield(texts[1..], normalized, loads, r);
    YieldsNoneMeansRejects(texts[0], loads, a);
    if k > 0 {
      assert forall j :: 0 <= j < k - 1 ==> texts[1..][j] == texts[j+1];
      FirstAcceptedDecides(texts[1..], normalized, loads, r, k - 1);
    }
  }

  /** A content written as lines of prose and fences; the text of a fence is found as it stands. */
  ghost predicate Written(content: string, d: Document) {
    ProperDocument(d) && (forall l <- Lines(d) :: OneLine(l)) && (Lines(d) != [] ==> Lines(d)[|Lines(d)|-1] != "")
    && content == JoinLines(Lines(d)) && CommaText.Strip(content) == content
  }

  /** When all before it is rejected, the k-th fenced body that loads is the result. */
  lemma {:induction false} FencedValueIsParsed<V(!new)>(content: string, d: Document, k: nat,
                                                        loads: string -> Loaded<V>, r: Option<V>)
    requires Written(content, d) && k < |Bodies(d)| && FirstYield(Attempts(content), Normalized(content), loads, r)
    requires Rejects(Normalized(content), loads)
    requires forall j :: 0 <= j < k ==> Rejects(CommaText.Strip(JoinLines(Bodies(d)[j])), loads)
    requires !loads(CommaText.Strip(JoinLines(Bodies(d)[k]))).Rejected?
    ensures r == Some(loads(CommaText.Strip(JoinLines(Bodies(d)[k]))).value)
  {
    SplitUndoesJoin(Lines(d));
    FencedBodiesAreFound(d);
    var texts := Attempts(content);
    assert forall j :: 0 <= j < |Bodies(d)| ==> texts[j+1] == CommaText.Strip(JoinLines(Bodies(d)[j]));
    forall j | 0 <= j < k + 1 ensures Rejects(texts[j], loads) {
      assert j > 0 ==> texts[j] == CommaText.Strip(JoinLines(Bodies(d)[j-1]));
    }
    FirstAcceptedDecides(texts, Normalized(content), loads, r, k + 1);
  }

  // ---------------------------------------------------------------------
  // The texts that are tried, told from the document
  // ---------------------------------------------------------------------

  /** All lines of prose and of bodies in order, the body of a fence that never closes included. */
  function TextLines(d: Document): seq<string> {
    match d
    case Prose(lines) => lines
    case Fenced(prose, _, body, _, rest) => prose + (body + TextLines(rest))
    case Unclosed(prose, _, body) => prose + body
  }

  predicate OpensWithFence(d: Document) { !d.Prose? && d.prose == [] }

  lemma {:induction false} NotFencesOfBoth(a: seq<string>, b: seq<string>)
    ensures NotFences(a + b) == NotFences(a) + NotFences(b)
  {
    if a == [] {
      assert a + b == b;
    } else {
      assert (a + b)[0] == a[0] && (a + b)[1..] == a[1..] + b;
      NotFencesOfBoth(a[1..], b);
      var first := if IsFence(a[0]) then [] else [a[0]];
      Associates(first, NotFences(a[1..]), NotFences(b));
    }
  }

  lemma {:induction false} PlainLinesStay(plain: seq<string>)
    requires forall l <- plain :: !IsFence(l)
    ensures NotFences(plain) == plain
  {
    if plain != [] {
      assert plain[0] in plain && forall l <- plain[1..] :: l in plain;
      PlainLinesStay(plain[1..]);
    }
  }

  lemma {:induction false} FenceLineGoes(fence: string, rest: seq<string>)
    requires IsFence(fence)
    ensures NotFences([fence] + rest) == NotFences(rest)
  {
    assert ([fence] + rest)[1..] == rest;
  }

  lemma {:induction false} NotFencesAreTheText(d: Document)
    requires ProperDocument(d)
    ensures NotFences(Lines(d)) == TextLines(d)
  {
    match d
    case Prose(lines) => PlainLinesStay(lines);
    case Fenced(prose, open, body, close, rest) =>
      assert (forall l <- prose :: l in prose + body) && (forall l <- body :: l in prose + body);
      PlainLinesStay(prose);
      PlainLinesStay(body);
      NotFencesAreTheText(rest);
      FenceLineGoes(close, Lines(rest));
      NotFencesOfBoth(body, [close] + Lines(rest));
      FenceLineGoes(open, body + ([close] + Lines(rest)));
      NotFencesOfBoth(prose, [open] + (body + ([close] + Lines(rest))));
    case Unclosed(prose, open, body) =>
      assert (forall l <- prose :: l in prose + body) && (forall l <- body :: l in prose + body);
      PlainLinesStay(prose);
      PlainLinesStay(body);
      FenceLineGoes(open, body);
      NotFencesOfBoth(prose, [open] + body);
  }

  /** A text starts with a fence exactly when its first line does. */
  lemma {:induction false} FenceInFront(lines: seq<string>)
    requires lines != []
    ensures IsFence(JoinLines(lines)) <==> IsFence(lines[0])
  {
    var line, text := lines[0], JoinLines(lines);
    if |lines| > 1 {
      if |line| < 3 && |text| >= 3 {
        assert text[|line|] == '\n' && text[..3][|line|] == '\n';
      } else if |line| >= 3 {
        assert text[..3] == line[..3];
      }
    }
  }

  lemma {:induction false} FirstLine(d: Document)
    requires ProperDocument(d)
    ensures OpensWithFence(d) <==> Lines(d) != [] && IsFence(Lines(d)[0])
  {
    if Lines(d) != [] && (d.Prose? || d.prose != []) {
      if d.Prose? {
        assert d.lines[0] in d.lines;
      } else {
        assert d.prose[0] in d.prose + d.body && Lines(d)[0] == d.prose[0];
      }
    }
  }

  /** The normalized text of any written document: its text lines when it opens with a fence, else all of it. */
  lemma {:induction false} NormalizedIsTheText(content: string, d: Document)
    requires Written(content, d)
    ensures Normalized(content) == if OpensWithFence(d) then CommaText.Strip(JoinLines(TextLines(d))) else content
  {
    SplitUndoesJoin(Lines(d));
    NotFencesAreTheText(d);
    FirstLine(d);
    if Lines(d) != [] {
      FenceInFront(Lines(d));
    }
  }

  /** The texts that are tried: the normalized one, and then each closed body. */
  lemma {:induction false} AttemptsAreTheBodies(content: string, d: Document)
    requires Written(content, d)
    ensures Attempts(content) == [Normalized(content)] + BodyTexts(Bodies(d))
  {
    SplitUndoesJoin(Lines(d));
    FencedBodiesAreFound(d);
  }

  /** When the text lines of a document that opens with a fence load, their value is the result. */
  lemma {:induction false} FencedTextIsParsed<V(!new)>(content: string, d: Document, loads: string -> Loaded<V>,
                                                       r: Option<V>)
    requires Written(content, d) && OpensWithFence(d) && FirstYield(Attempts(content), Normalized(content), loads, r)
    requires !loads(CommaText.Strip(JoinLines(TextLines(d)))).Rejected?
    ensures r == Some(loads(CommaText.Strip(JoinLines(TextLines(d)))).value)
  {
    NormalizedIsTheText(content, d);
    FirstAcceptedDecides(Attempts(content), Normalized(content), loads, r, 0);
  }

  /** A reply that is one fence, closed or cut off before its end: when the body loads, its value is the result. */
  lemma {:induction false} OneFenceIsParsed<V(!new)>(content: string, open: string, body: seq<string>, close: string,
                                                     loads: string -> Loaded<V>, r: Option<V>)
    requires Written(content, Unclosed([], open, body)) || Written(content, Fenced([], open, body, close, Prose([])))
    requires FirstYield(Attempts(content), Normalized(content), loads, r)
    requires !loads(CommaText.Strip(JoinLines(body))).Rejected?
    ensures r == Some(loads(CommaText.Strip(JoinLines(body))).value)
  {
    var cut, whole := Unclosed([], open, body), Fenced([], open, body, close, Prose([]));
    assert TextLines(cut) == body && TextLines(whole) == body;
    FencedTextIsParsed(content, if Written(content, cut) then cut else whole, loads, r);
  }

  /** Within one text the whole comes before the block. */
  lemma {:induction false} WholeBeforeBlock<V(!new)>(text: string, loads: string -> Loaded<V>, r: Option<V>)
    requires Yields(text, loads, r)
    ensures !loads(text).Rejected? ==> r == Some(loads(text).value)
    ensures loads(text).Rejected? ==>
              forall block :: IsTopLevelBlock(text, block) ==>
                r == if block == None then None else Value(loads(block.value))
  {
    var block :| IsTopLevelBlock(text, block) &&
      r == if !loads(text).Rejected? || block == None then Value(loads(text)) else Value(loads(block.value));
    forall other | IsTopLevelBlock(text, other) ensures other == block {
      TopLevelBlockIsUnique(text, other, block);
    }
  }

  /** The text from its first bracket, a brace, to position last loads as an object, and no longer one does. */
  ghost predicate LongestEndsAt<V(!new)>(text: string, loads: string -> Loaded<V>, last: nat) {
    var start := FindFirstJsonStart(text);
    start >= 0 && text[start] == '{' && LoadsAt(text, loads, start, last)
    && forall later: nat :: later > last ==> !LoadsAt(text, loads, start, later)
  }

  lemma {:induction false} OneLongest<V(!new)>(text: string, loads: string -> Loaded<V>, c: Option<string>, last: nat)
    requires LongestEndsAt(text, loads, last) && IsLongestObject(text, loads, c)
    ensures c == Some(text[FindFirstJsonStart(text)..last+1])
  {
    var start := FindFirstJsonStart(text);
    assert c.Some?;
    var other: nat :| LoadsAt(text, loads, start, other) && c.value == text[start..other+1]
                      && forall later: nat :: later > other ==> !LoadsAt(text, loads, start, later);
    assert other == last;
  }

  /** When every text is rejected, the longest object the normalized text starts with is the result. */
  lemma {:induction false} LongestObjectIsRepaired<V(!new)>(content: string, loads: string -> Loaded<V>, r: Option<V>,
                                                            last: nat)
    requires FirstYield(Attempts(content), Normalized(content), loads, r)
    requires forall t <- Attempts(content) :: Rejects(t, loads)
    requires LongestEndsAt(Normalized(content), loads, last)
    ensures var text := Normalized(content);
            r == Some(loads(text[FindFirstJsonStart(text)..last+1]).value)
  {
    var text := Normalized(content);
    AllRejectedRepairs(Attempts(content), text, loads, r);
    var c :| IsLongestObject(text, loads, c) && r == if c == None then None else Value(loads(c.value));
    OneLongest(text, loads, c, last);
  }

  lemma {:induction false} AllRejectedRepairs<V(!new)>(texts: seq<string>, normalized: string,
                                                       loads: string -> Loaded<V>, r: Option<V>)
    requires FirstYield(texts, normalized, loads, r) && forall t <- texts :: Rejects(t, loads)
    ensures IsRepair(normalized, loads, r)
  {
    if texts != [] {
      var a :| Yields(texts[0], loads, a) && if a.Some? then r == a else FirstYield(texts[1..], normalized, loads, r);
      assert texts[0] in texts && forall t <- texts[1..] :: t in texts;
      YieldsNoneMeansRejects(texts[0], loads, a);
      AllRejectedRepairs(texts[1..], normalized, loads, r);
    }
  }

  // ---------------------------------------------------------------------
  // Every content is a written document
  // ---------------------------------------------------------------------

  /** The number of lines in front of the first fence. */
  function Leading(lines: seq<string>): (n: nat)
    ensures n <= |lines| && (forall l <- lines[..n] :: !IsFence(l)) && (n < |lines| ==> IsFence(lines[n]))
  {
    if lines == [] || IsFence(lines[0]) then 0
    else
      assert forall k :: 0 < k <= |lines| ==> lines[..k] == [lines[0]] + lines[1..][..k-1];
      1 + Leading(lines[1..])
  }

  function Structured(lines: seq<string>): Document
    decreases |lines|
  {
    var n := Leading(lines);
    if n == |lines| then Prose(lines)
    else
      var behind := lines[n+1..];
      var m := Leading(behind);
      if m == |behind| then Unclosed(lines[..n], lines[n], behind)
      else Fenced(lines[..n], lines[n], behind[..m], behind[m], Structured(behind[m+1..]))
  }

  lemma {:induction false} StructuredIsProper(lines: seq<string>)
    ensures ProperDocument(Structured(lines)) && Lines(Structured(lines)) == lines
    decreases |lines|
  {
    var n := Leading(lines);
    if n == |lines| {
      assert lines[..n] == lines;
    } else {
      var behind := lines[n+1..];
      var m := Leading(behind);
      CutOut(lines, n);
      if m == |behind| {
        assert behind[..m] == behind;
        UnclosedIsProper(lines[..n], lines[n], behind);
      } else {
        CutOut(behind, m);
        StructuredIsProper(behind[m+1..]);
        FencedIsProper(lines[..n], lines[n], behind[..m], behind[m], Structured(behind[m+1..]));
      }
    }
  }

  lemma {:induction false} CutOut(lines: seq<string>, n: nat)
    requires n < |lines|
    ensures lines == lines[..n] + ([lines[n]] + lines[n+1..])
  {}

  lemma {:induction false} UnclosedIsProper(prose: seq<string>, open: string, body: seq<string>)
    requires (forall l <- prose :: !IsFence(l)) && (forall l <- body :: !IsFence(l)) && IsFence(open)
    ensures ProperDocument(Unclosed(prose, open, body))
  {}

  lemma {:induction false} FencedIsProper(prose: seq<string>, open: string, body: seq<string>, close: string,
                                          rest: Document)
    requires (forall l <- prose :: !IsFence(l)) && (forall l <- body :: !IsFence(l))
    requires IsFence(open) && IsFence(close) && ProperDocument(rest)
    ensures ProperDocument(Fenced(prose, open, body, close, rest))
  {}

  lemma {:induction false} PrependToFirst(c: char, lines: seq<string>)
    requires lines != []
    ensures JoinLines([[c] + lines[0]] + lines[1..]) == [c] + JoinLines(lines)
  {
    if |lines| > 1 {
      var rest := "\n" + JoinLines(lines[1..]);
      assert ([c] + lines[0]) + rest == [c] + (lines[0] + rest);
    }
  }

  lemma {:induction false} PrependEmpty(lines: seq<string>)
    requires lines != []
    ensures JoinLines([""] + lines) == "\n" + JoinLines(lines)
  {
    assert ([""] + lines)[1..] == lines;
  }

  lemma {:induction false} PrependedIsOneLine(c: char, lines: seq<string>)
    requires lines != [] && c != '\n' && forall l <- lines :: OneLine(l)
    ensures forall l <- [[c] + lines[0]] + lines[1..] :: OneLine(l)
  {
    assert OneLine(lines[0]) && forall l <- lines[1..] :: l in lines;
  }

  lemma {:induction false} JoinUndoesSplit(s: string)
    requires s != "" ==> s[|s|-1] != '\n'
    ensures JoinLines(SplitLines(s)) == s && forall l <- SplitLines(s) :: OneLine(l)
    ensures s != "" ==> SplitLines(s)[|SplitLines(s)|-1] != ""
  {
    if |s| > 1 {
      JoinUndoesSplit(s[1..]);
      var rest := SplitLines(s[1..]);
      assert s == [s[0]] + s[1..];
      if s[0] == '\n' {
        PrependEmpty(rest);
      } else {
        PrependToFirst(s[0], rest);
        PrependedIsOneLine(s[0], rest);
      }
    }
  }

  /** Every stripped content can be read as such a document: what is said of documents holds for all contents. */
  lemma {:induction false} EveryContentIsWritten(content: string)
    requires CommaText.Strip(content) == content
    ensures Written(content, Structured(SplitLines(content)))
  {
    if content != "" {
      NoSpaceAtTheEnd(content);
    }
    JoinUndoesSplit(content);
    StructuredIsProper(SplitLines(content));
  }

  lemma {:induction false} NoSpaceAtTheEnd(s: string)
    requires s != "" && CommaText.Strip(s) == s
    ensures s[|s|-1] != '\n'
  {
    CommaText.StripsLeft(s);
    CommaText.StripsRight(CommaText.StripLeft(s));
    assert CommaText.StripRight(s) == s;
    CommaText.StripRightShortens(s[..|s|-1]);
  }

  lemma {:induction false} StripAround(prefix: string, core: string, suffix: string)
    requires core != "" && !CommaText.IsSpace(core[0]) && !CommaText.IsSpace(core[|core|-1])
    ensures CommaText.Strip(prefix + core + suffix)
            == CommaText.StripLeft(prefix) + core + CommaText.StripRight(suffix)
  {
    StripLeftOf(prefix, core + suffix);
    assert prefix + core + suffix == prefix + (core + suffix);
    assert CommaText.StripLeft(prefix) + core + suffix == CommaText.StripLeft(prefix) + (core + suffix);
    StripRightOf(CommaText.StripLeft(prefix) + core, suffix);
  }

  lemma {:induction false} StripLeftOf(prefix: string, rest: string)
    requires rest != "" && !CommaText.IsSpace(rest[0])
    ensures CommaText.StripLeft(prefix + rest) == CommaText.StripLeft(prefix) + rest
  {
    if prefix == "" {
      assert prefix + rest == rest;
    } else if CommaText.IsSpace(prefix[0]) {
      assert (prefix + rest)[1..] == prefix[1..] + rest;
      StripLeftOf(prefix[1..], rest);
    }
  }

  lemma {:induction false} StripRightOf(front: string, suffix: string)
    requires front != "" && !CommaText.IsSpace(front[|front|-1])
    ensures CommaText.StripRight(front + suffix) == front + CommaText.StripRight(suffix)
  {
    if suffix == "" {
      assert front + suffix == front;
    } else if CommaText.IsSpace(suffix[|suffix|-1]) {
      assert (front + suffix)[..|front + suffix|-1] == front + suffix[..|suffix|-1];
      StripRightOf(front, suffix[..|suffix|-1]);
    }
  }

  lemma {:induction false} StripLeftKeepsNoBracket(s: string)
    requires NoBracket(s)
    ensures NoBracket(CommaText.StripLeft(s))
  {
    if s != "" && CommaText.IsSpace(s[0]) {
      assert NoBracket(s[1..]) by {
        assert s == [s[0]] + s[1..];
      }
      StripLeftKeepsNoBracket(s[1..]);
    }
  }

  /** A value that the parser accepts is found inside bracket-free prose, whatever follows it. */
  lemma {:induction false} EmbeddedValueIsParsed<V(!new)>(prefix: string, v: Text, suffix: string,
                                                          loads: string -> Loaded<V>, r: Option<V>)
    requires Valid(v) && (v.Arr? || v.Obj?) && NoBracket(prefix)
    ensures var content := prefix + Print(v) + suffix;
            FirstYield(Attempts(content), Normalized(content), loads, r)
            && !IsFence(CommaText.Strip(content)) && loads(CommaText.Strip(content)).Rejected?
            && !loads(Print(v)).Rejected? ==>
              r == Some(loads(Print(v)).value)
  {
    var content := prefix + Print(v) + suffix;
    var text := CommaText.Strip(content);
    if FirstYield(Attempts(content), Normalized(content), loads, r)
       && !IsFence(text) && loads(text).Rejected? && !loads(Print(v)).Rejected? {
      StripAround(prefix, Print(v), suffix);
      StripLeftKeepsNoBracket(prefix);
      var a :| Yields(text, loads, a) &&
               if a.Some? then r == a else FirstYield(Attempts(content)[1..], text, loads, r);
      var block :| IsTopLevelBlock(text, block) &&
        a == if !loads(text).Rejected? || block == None then Value(loads(text)) else Value(loads(block.value));
      ExtractsExactlyThePrintedValue(CommaText.StripLeft(prefix), v, CommaText.StripRight(suffix), block);
    }
  }
}
