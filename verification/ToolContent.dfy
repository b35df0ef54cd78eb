/**
 Reducing tool content to one text (siliconflow_adapter.py): JSON inside JSON
 strings is decoded layer by layer, dicts give up their first useful field and
 one-element lists their element.
 */
module ToolContent {
  import opened Basics
  import JsonText

  /** Scalar carries str(x or ""), so its text is empty for False and zero. */
  datatype Value =
    | Null
    | Scalar(text: string)
    | Str(s: string)
    | List(elems: seq<Value>)
    | Dict(entries: seq<Entry>)

  datatype Entry = Entry(key: string, value: Value)

  function Size(v: Value): (n: nat)
    ensures n >= 1
  {
    match v
    case Null => 1
    case Scalar(_) => 1
    case Str(s) => 1 + |s|
    case List(elems) => 1 + SizeOfAll(elems)
    case Dict(entries) => 1 + SizeOfEntries(entries)
  }

  function SizeOfAll(vs: seq<Value>): nat {
    if vs == [] then 0 else Size(vs[0]) + SizeOfAll(vs[1..])
  }

  function SizeOfEntries(es: seq<Entry>): nat {
    if es == [] then 0 else Size(es[0].value) + SizeOfEntries(es[1..])
  }

  // ---------------------------------------------------------------------
  // What a JSON text may decode to
  // ---------------------------------------------------------------------

  /** v is a decoding of t; every string item gives at most one character. */
  predicate Decodes(t: JsonText.Text, v: Value) {
    match t
    case Word(_) => v.Null? || v.Scalar?
    case Str(items) => v.Str? && |v.s| <= |items|
    case Arr(_, elems) => v.List? && DecodesElems(elems, v.elems)
    case Obj(_, members) => v.Dict? && DecodesMembers(members, v.entries)
  }

  predicate DecodesElems(e: JsonText.Elems, vs: seq<Value>) {
    if e.NoElems? then vs == [] else vs != [] && Decodes(e.value, vs[0]) && DecodesElems(e.rest, vs[1..])
  }

  predicate DecodesMembers(m: JsonText.Members, es: seq<Entry>) {
    if m.NoMembers? then es == []
    else es != [] && Decodes(m.value, es[0].value) && DecodesMembers(m.rest, es[1..])
  }

  lemma {:induction false} ItemsTakeSpace(items: seq<JsonText.StrItem>)
    ensures |JsonText.PrintItems(items)| >= |items|
  {
    if items != [] {
      ItemsTakeSpace(items[1..]);
    }
  }

  /** A JSON text is at least as long as the value it decodes to is big. */
  lemma {:induction false} TextOutweighsValue(t: JsonText.Text, v: Value)
    requires JsonText.Valid(t) && Decodes(t, v)
    ensures Size(v) <= |JsonText.Print(t)|
    ensures v.Str? ==> |v.s| + 2 <= |JsonText.Print(t)|
  {
    match t
    case Word(_) =>
    case Str(items) => ItemsTakeSpace(items);
    case Arr(_, elems) => ElemsOutweighValues(elems, v.elems);
    case Obj(_, members) => MembersOutweighEntries(members, v.entries);
  }

  lemma {:induction false} ElemsOutweighValues(e: JsonText.Elems, vs: seq<Value>)
    requires JsonText.ValidElems(e) && DecodesElems(e, vs)
    ensures SizeOfAll(vs) <= |JsonText.PrintElems(e)|
  {
    if e.Elem? {
      TextOutweighsValue(e.value, vs[0]);
      ElemsOutweighValues(e.rest, vs[1..]);
    }
  }

  lemma {:induction false} MembersOutweighEntries(m: JsonText.Members, es: seq<Entry>)
    requires JsonText.ValidMembers(m) && DecodesMembers(m, es)
    ensures SizeOfEntries(es) <= |JsonText.PrintMembers(m)|
  {
    if m.Member? {
      TextOutweighsValue(m.value, es[0].value);
      MembersOutweighEntries(m.rest, es[1..]);
    }
  }

  // ---------------------------------------------------------------------
  // The reduction
  // ---------------------------------------------------------------------

  /** s is the JSON text t with white space around it (section 2 of RFC 8259). */
  predicate IsTextOf(s: string, t: JsonText.Text, before: string, after: string) {
    JsonText.Valid(t) && JsonText.IsBlank(before) && JsonText.IsBlank(after) && s == before + JsonText.Print(t) + after
  }

  /** The library calls: json.loads, json.dumps and str.strip. */
  datatype Library = Library(loads: string -> Option<Value>, dumps: Value -> string, strip: string -> string) {

    /** loads accepts JSON texts only, white space around them included; dumps prints something; strip only removes. */
    ghost predicate Sound() {
      (forall s, v :: loads(s) == Some(v) ==> exists t, before, after :: IsTextOf(s, t, before, after) && Decodes(t, v))
      && (forall v :: dumps(v) != "")
      && (forall s :: |strip(s)| <= |s|)
    }
  }

  function ParseEmbeddedJsonString(content: string, lib: Library): Option<Value> {
    var stripped := lib.strip(content);
    if stripped == "" then None else lib.loads(stripped)
  }

  /** Decoding one layer strictly shrinks the content. */
  lemma {:induction false} DecodingShrinks(content: string, lib: Library)
    requires lib.Sound()
    ensures var v := ParseEmbeddedJsonString(content, lib);
            v.Some? ==> Size(v.value) < Size(Str(content)) && (v.value.Str? ==> |v.value.s| + 2 <= |content|)
  {
    var stripped := lib.strip(content);
    assert |stripped| <= |content|;
    var v := lib.loads(stripped);
    if v.Some? {
      var t, before, after :| IsTextOf(stripped, t, before, after) && Decodes(t, v.value);
      TextOutweighsValue(t, v.value);
    }
  }

  /** dict.get: the last entry with the key. */
  function Get(entries: seq<Entry>, key: string): (v: Option<Value>)
    ensures v.Some? ==> Size(v.value) <= SizeOfEntries(entries)
  {
    if entries == [] then None
    else
      var later := Get(entries[1..], key);
      if later.Some? then later else if entries[0].key == key then Some(entries[0].value) else None
  }

  const FIELDS := ["content", "message", "result", "data"]

  /** The first field holding a text that is not blank. */
  function FirstTextField(entries: seq<Entry>, keys: seq<string>, lib: Library): Option<string> {
    if keys == [] then None
    else
      match Get(entries, keys[0])
      case Some(Str(s)) => if lib.strip(s) != "" then Some(s) else FirstTextField(entries, keys[1..], lib)
      case _ => FirstTextField(entries, keys[1..], lib)
  }

  /** The first field holding a dict or a list that reduces to something. */
  function FirstNestedField(entries: seq<Entry>, keys: seq<string>, lib: Library): Option<string>
    requires lib.Sound()
    decreases SizeOfEntries(entries), 2, |keys|
  {
    if keys == [] then None
    else
      var v := Get(entries, keys[0]);
      var serialized := if v.Some? && (v.value.Dict? || v.value.List?) then Stringify(v.value, lib) else "";
      if serialized != "" then Some(serialized) else FirstNestedField(entries, keys[1..], lib)
  }

  function ExtractMinimalDictString(entries: seq<Entry>, lib: Library): Option<string>
    requires lib.Sound()
    decreases SizeOfEntries(entries), 3
  {
    var text := FirstTextField(entries, FIELDS, lib);
    if text.Some? then text else FirstNestedField(entries, FIELDS, lib)
  }

  /** Terminates on every value, however deep the JSON is nested inside JSON strings. */
  function Stringify(content: Value, lib: Library): string
    requires lib.Sound()
    decreases Size(content), 1
  {
    match content
    case Str(s) =>
      var parsed := ParseEmbeddedJsonString(s, lib);
      if parsed.None? || parsed.value.Null? then s
      else
        DecodingShrinks(s, lib);
        var minimized := Stringify(parsed.value, lib);
        if minimized != "" then minimized else s
    case Dict(entries) =>
      var extracted := ExtractMinimalDictString(entries, lib);
      if extracted.Some? && extracted.value != "" then extracted.value else lib.dumps(content)
    case List(elems) =>
      if |elems| == 1 then
        assert SizeOfAll(elems) == Size(elems[0]) + SizeOfAll(elems[1..]);
        Stringify(elems[0], lib)
      else lib.dumps(content)
    case Scalar(text) => text
    case Null => ""
  }

  // ---------------------------------------------------------------------
  // What the reduction keeps
  // ---------------------------------------------------------------------

  /** A falsy leaf, possibly inside one-element lists. */
  predicate Hollow(v: Value) {
    match v
    case Null => true
    case Scalar(text) => text == ""
    case Str(s) => s == ""
    case List(elems) => |elems| == 1 && Hollow(elems[0])
    case Dict(_) => false
  }

  /** Content is lost only where there was none: the result is empty exactly for hollow values. */
  lemma {:induction false} EmptyOnlyIfHollow(v: Value, lib: Library)
    requires lib.Sound()
    ensures Stringify(v, lib) == "" <==> Hollow(v)
    decreases Size(v)
  {
    match v
    case List(elems) =>
      if |elems| == 1 {
        assert SizeOfAll(elems) == Size(elems[0]) + SizeOfAll(elems[1..]);
        EmptyOnlyIfHollow(elems[0], lib);
      }
    case Str(s) =>
      if s == "" {
        DecodingShrinks(s, lib);
      }
    case _ =>
  }

  /** layers[0] encodes v, and each further layer encodes the one before it as a JSON string. */
  predicate Layered(layers: seq<string>, v: Value, lib: Library) {
    layers != [] &&
    ParseEmbeddedJsonString(layers[0], lib) == Some(v) &&
    forall i :: 0 < i < |layers| ==> ParseEmbeddedJsonString(layers[i], lib) == Some(Str(layers[i-1]))
  }

  /** Any number of encoding layers reduces to what the encoded value reduces to. */
  lemma {:induction false} LayersAreInvisible(layers: seq<string>, v: Value, lib: Library)
    requires lib.Sound() && Layered(layers, v, lib)
    ensures Stringify(Str(layers[|layers|-1]), lib) == if Hollow(v) then layers[0] else Stringify(v, lib)
    ensures |layers[|layers|-1]| >= |layers[0]| + 2 * (|layers| - 1)
    decreases |layers|
  {
    var n := |layers| - 1;
    EmptyOnlyIfHollow(v, lib);
    DecodingShrinks(layers[n], lib);
    if n > 0 {
      LayersAreInvisible(layers[..n], v, lib);
      assert layers[..n][n-1] == layers[n-1] && layers[..n][0] == layers[0];
      DecodingShrinks(layers[0], lib);
    }
  }

  predicate IsText(v: Option<Value>, lib: Library) { v.Some? && v.value.Str? && lib.strip(v.value.s) != "" }

  predicate IsNested(v: Option<Value>) { v.Some? && (v.value.Dict? || v.value.List?) && !Hollow(v.value) }

  lemma {:induction false} FirstTextFieldIsFirst(entries: seq<Entry>, keys: seq<string>, lib: Library)
    ensures match FirstTextField(entries, keys, lib)
            case None => forall k <- keys :: !IsText(Get(entries, k), lib)
            case Some(s) => exists i :: 0 <= i < |keys| && IsText(Get(entries, keys[i]), lib)
                              && Get(entries, keys[i]).value.s == s
                              && forall j :: 0 <= j < i ==> !IsText(Get(entries, keys[j]), lib)
  {
    if keys != [] && !IsText(Get(entries, keys[0]), lib) {
      FirstTextFieldIsFirst(entries, keys[1..], lib);
      var r := FirstTextField(entries, keys[1..], lib);
      if r.Some? {
        var i :| 0 <= i < |keys[1..]| && IsText(Get(entries, keys[1..][i]), lib)
                 && Get(entries, keys[1..][i]).value.s == r.value
                 && forall j :: 0 <= j < i ==> !IsText(Get(entries, keys[1..][j]), lib);
        assert keys[i+1] == keys[1..][i];
        forall j | 0 <= j < i + 1 ensures !IsText(Get(entries, keys[j]), lib) {
          assert j > 0 ==> keys[j] == keys[1..][j-1];
        }
      }
    }
  }

  lemma {:induction false} FirstNestedFieldIsFirst(entries: seq<Entry>, keys: seq<string>, lib: Library, i: nat)
    requires lib.Sound() && i < |keys| && IsNested(Get(entries, keys[i]))
    requires forall j :: 0 <= j < i ==> !IsNested(Get(entries, keys[j]))
    ensures FirstNestedField(entries, keys, lib) == Some(Stringify(Get(entries, keys[i]).value, lib))
  {
    var v := Get(entries, keys[0]);
    if v.Some? {
      EmptyOnlyIfHollow(v.value, lib);
    }
    if i > 0 {
      FirstNestedFieldIsFirst(entries, keys[1..], lib, i - 1);
    }
  }

  /** A dict gives up its first text field; only without one, its first nested field that reduces to something. */
  lemma {:induction false} DictGivesUpItsFirstField(entries: seq<Entry>, lib: Library, i: nat)
    requires lib.Sound() && i < |FIELDS|
    ensures IsText(Get(entries, FIELDS[i]), lib)
            && (forall j :: 0 <= j < i ==> !IsText(Get(entries, FIELDS[j]), lib)) ==>
              Stringify(Dict(entries), lib) == Get(entries, FIELDS[i]).value.s
    ensures (forall k <- FIELDS :: !IsText(Get(entries, k), lib)) && IsNested(Get(entries, FIELDS[i]))
            && (forall j :: 0 <= j < i ==> !IsNested(Get(entries, FIELDS[j]))) ==>
              Stringify(Dict(entries), lib) == Stringify(Get(entries, FIELDS[i]).value, lib)
  {
    FirstTextFieldIsFirst(entries, FIELDS, lib);
    assert FIELDS[i] in FIELDS;
    if IsNested(Get(entries, FIELDS[i])) && forall j :: 0 <= j < i ==> !IsNested(Get(entries, FIELDS[j])) {
      FirstNestedFieldIsFirst(entries, FIELDS, lib, i);
      EmptyOnlyIfHollow(Get(entries, FIELDS[i]).value, lib);
    }
  }

  // ---------------------------------------------------------------------
  // The result as the end of a chain
  // ---------------------------------------------------------------------

  predicate IsDecoded(s: string, w: Value, lib: Library) { lib.strip(s) != "" && lib.loads(lib.strip(s)) == Some(w) }

  /** The first of the keys with a text that is not blank has this one. */
  ghost predicate IsFirstText(entries: seq<Entry>, text: string, lib: Library) {
    exists i :: 0 <= i < |FIELDS| && IsText(Get(entries, FIELDS[i]), lib) && Get(entries, FIELDS[i]).value.s == text
                && forall j :: 0 <= j < i ==> !IsText(Get(entries, FIELDS[j]), lib)
  }

  /** The first of the keys with a dict or a list that is not hollow has this one. */
  ghost predicate IsFirstNested(entries: seq<Entry>, w: Value) {
    exists i :: 0 <= i < |FIELDS| && IsNested(Get(entries, FIELDS[i])) && Get(entries, FIELDS[i]).value == w
                && forall j :: 0 <= j < i ==> !IsNested(Get(entries, FIELDS[j]))
  }

  predicate NoText(entries: seq<Entry>, lib: Library) { forall k <- FIELDS :: !IsText(Get(entries, k), lib) }

  predicate NoNested(entries: seq<Entry>) { forall k <- FIELDS :: !IsNested(Get(entries, k)) }

  /** One layer is taken off: a string is decoded, an only element or the first useful field is taken out. */
  ghost predicate Unwraps(v: Value, w: Value, lib: Library) {
    match v
    case Str(s) => IsDecoded(s, w, lib) && !Hollow(w)
    case List(elems) => elems == [w]
    case Dict(entries) => NoText(entries, lib) && IsFirstNested(entries, w)
    case _ => false
  }

  /** No layer can be taken off, and the text is what v says. */
  ghost predicate EndsAs(v: Value, text: string, lib: Library) {
    match v
    case Null => text == ""
    case Scalar(t) => text == t
    case Str(s) => text == s && forall w :: IsDecoded(s, w, lib) ==> Hollow(w)
    case List(elems) => |elems| != 1 && text == lib.dumps(v)
    case Dict(entries) =>
      IsFirstText(entries, text, lib) || (NoText(entries, lib) && NoNested(entries) && text == lib.dumps(v))
  }

  /** A chain of values from v on, each one layer inside the one before, that ends as the text. */
  ghost predicate Chain(v: Value, vs: seq<Value>, text: string, lib: Library) {
    vs != [] && vs[0] == v && EndsAs(vs[|vs|-1], text, lib)
    && forall i :: 0 <= i < |vs| - 1 ==> Unwraps(vs[i], vs[i+1], lib)
  }

  lemma {:induction false} TextIsTaken(entries: seq<Entry>, text: string, lib: Library)
    requires lib.Sound()
    ensures IsFirstText(entries, text, lib) ==> Stringify(Dict(entries), lib) == text && !NoText(entries, lib)
    ensures NoText(entries, lib) <==> FirstTextField(entries, FIELDS, lib) == None
  {
    FirstTextFieldIsFirst(entries, FIELDS, lib);
    if IsFirstText(entries, text, lib) {
      var i :| 0 <= i < |FIELDS| && IsText(Get(entries, FIELDS[i]), lib) && Get(entries, FIELDS[i]).value.s == text
               && forall j :: 0 <= j < i ==> !IsText(Get(entries, FIELDS[j]), lib);
      DictGivesUpItsFirstField(entries, lib, i);
      assert FIELDS[i] in FIELDS;
    }
  }

  lemma {:induction false} NestedIsTaken(entries: seq<Entry>, w: Value, lib: Library)
    requires lib.Sound() && NoText(entries, lib) && IsFirstNested(entries, w)
    ensures Stringify(Dict(entries), lib) == Stringify(w, lib) && Size(w) < Size(Dict(entries))
  {
    var i :| 0 <= i < |FIELDS| && IsNested(Get(entries, FIELDS[i])) && Get(entries, FIELDS[i]).value == w
             && forall j :: 0 <= j < i ==> !IsNested(Get(entries, FIELDS[j]));
    DictGivesUpItsFirstField(entries, lib, i);
  }

  lemma {:induction false} NothingNested(entries: seq<Entry>, keys: seq<string>, lib: Library)
    requires lib.Sound() && forall k <- keys :: !IsNested(Get(entries, k))
    ensures FirstNestedField(entries, keys, lib) == None
  {
    if keys != [] {
      var v := Get(entries, keys[0]);
      assert keys[0] in keys && forall k <- keys[1..] :: k in keys;
      if v.Some? {
        EmptyOnlyIfHollow(v.value, lib);
      }
      NothingNested(entries, keys[1..], lib);
    }
  }

  lemma {:induction false} DictIsDumped(entries: seq<Entry>, lib: Library)
    requires lib.Sound() && NoText(entries, lib) && NoNested(entries)
    ensures Stringify(Dict(entries), lib) == lib.dumps(Dict(entries))
  {
    TextIsTaken(entries, "", lib);
    NothingNested(entries, FIELDS, lib);
  }

  /** Taking off a layer does not change the result, and makes the value smaller. */
  lemma {:induction false} UnwrappingKeepsTheResult(v: Value, w: Value, lib: Library)
    requires lib.Sound() && Unwraps(v, w, lib)
    ensures Stringify(v, lib) == Stringify(w, lib) && Size(w) < Size(v)
  {
    match v
    case Str(s) =>
      DecodingShrinks(s, lib);
      EmptyOnlyIfHollow(w, lib);
    case List(elems) => assert SizeOfAll(elems) == Size(elems[0]) + SizeOfAll(elems[1..]);
    case Dict(entries) => NestedIsTaken(entries, w, lib);
  }

  lemma {:induction false} EndIsTheResult(v: Value, text: string, lib: Library)
    requires lib.Sound() && EndsAs(v, text, lib)
    ensures Stringify(v, lib) == text
  {
    match v
    case Str(s) =>
      var parsed := ParseEmbeddedJsonString(s, lib);
      if parsed.Some? {
        assert IsDecoded(s, parsed.value, lib);
        EmptyOnlyIfHollow(parsed.value, lib);
      }
    case Dict(entries) =>
      TextIsTaken(entries, text, lib);
      if !IsFirstText(entries, text, lib) {
        DictIsDumped(entries, lib);
      }
    case _ =>
  }

  lemma {:induction false} FirstNestedExists(entries: seq<Entry>, i: nat)
    requires i < |FIELDS| && IsNested(Get(entries, FIELDS[i]))
    ensures exists w :: IsFirstNested(entries, w)
  {
    if j :| 0 <= j < i && IsNested(Get(entries, FIELDS[j])) {
      FirstNestedExists(entries, j);
    } else {
      assert IsFirstNested(entries, Get(entries, FIELDS[i]).value);
    }
  }

  /** Either a layer can be taken off or the value ends as its result. */
  lemma {:induction false} UnwrapsOrEnds(v: Value, lib: Library)
    requires lib.Sound()
    ensures EndsAs(v, Stringify(v, lib), lib) || exists w :: Unwraps(v, w, lib)
  {
    match v
    case Str(s) =>
      if w :| IsDecoded(s, w, lib) && !Hollow(w) {
        assert Unwraps(v, w, lib);
      } else {
        EndIsTheResult(v, s, lib);
      }
    case List(elems) =>
      if |elems| == 1 {
        assert Unwraps(v, elems[0], lib);
      }
    case Dict(entries) => DictUnwrapsOrEnds(entries, lib);
    case _ =>
  }

  lemma {:induction false} DictUnwrapsOrEnds(entries: seq<Entry>, lib: Library)
    requires lib.Sound()
    ensures EndsAs(Dict(entries), Stringify(Dict(entries), lib), lib) || exists w :: Unwraps(Dict(entries), w, lib)
  {
    var text := FirstTextField(entries, FIELDS, lib);
    FirstTextFieldIsFirst(entries, FIELDS, lib);
    if text.Some? {
      assert IsFirstText(entries, text.value, lib);
      TextIsTaken(entries, text.value, lib);
    } else if NoNested(entries) {
      DictIsDumped(entries, lib);
    } else {
      var k :| k in FIELDS && IsNested(Get(entries, k));
      var i :| 0 <= i < |FIELDS| && FIELDS[i] == k;
      FirstNestedExists(entries, i);
      var w :| IsFirstNested(entries, w);
      assert Unwraps(Dict(entries), w, lib);
    }
  }

  lemma {:induction false} ChainExists(v: Value, lib: Library)
    requires lib.Sound()
    ensures exists vs :: Chain(v, vs, Stringify(v, lib), lib)
    decreases Size(v)
  {
    UnwrapsOrEnds(v, lib);
    if EndsAs(v, Stringify(v, lib), lib) {
      assert Chain(v, [v], Stringify(v, lib), lib);
    } else {
      var w :| Unwraps(v, w, lib);
      UnwrappingKeepsTheResult(v, w, lib);
      ChainExists(w, lib);
      var vs :| Chain(w, vs, Stringify(w, lib), lib);
      ChainGrows(v, w, vs, Stringify(w, lib), lib);
    }
  }

  lemma {:induction false} ChainGrows(v: Value, w: Value, vs: seq<Value>, text: string, lib: Library)
    requires Unwraps(v, w, lib) && Chain(w, vs, text, lib)
    ensures Chain(v, [v] + vs, text, lib)
  {
    var all := [v] + vs;
    forall i | 0 <= i < |all| - 1 ensures Unwraps(all[i], all[i+1], lib) {
      assert i > 0 ==> all[i] == vs[i-1] && all[i+1] == vs[i];
    }
  }

  lemma {:induction false} ChainLeadsToTheResult(v: Value, vs: seq<Value>, text: string, lib: Library)
    requires lib.Sound() && Chain(v, vs, text, lib)
    ensures text == Stringify(v, lib)
    decreases |vs|
  {
    if |vs| == 1 {
      EndIsTheResult(v, text, lib);
    } else {
      UnwrappingKeepsTheResult(v, vs[1], lib);
      var rest := vs[1..];
      forall i | 0 <= i < |rest| - 1 ensures Unwraps(rest[i], rest[i+1], lib) {
        assert rest[i] == vs[i+1] && rest[i+1] == vs[i+2];
      }
      ChainLeadsToTheResult(vs[1], rest, text, lib);
    }
  }

  /**
   What any content reduces to: take off layers as long as one can be taken off. The
   value left then gives the text: a string itself, a scalar its text, and a dict without
   a useful field or a list of any length but one its JSON.
   */
  lemma {:induction false} ResultEndsTheChain(v: Value, text: string, lib: Library)
    requires lib.Sound()
    ensures text == Stringify(v, lib) <==> exists vs :: Chain(v, vs, text, lib)
  {
    ChainExists(v, lib);
    if vs :| Chain(v, vs, text, lib) {
      ChainLeadsToTheResult(v, vs, text, lib);
    }
  }

  /** Of entries with one key the last one counts. */
  lemma {:induction false} LastEntryCounts(entries: seq<Entry>, key: string)
    ensures match Get(entries, key)
            case None => forall i :: 0 <= i < |entries| ==> entries[i].key != key
            case Some(v) => exists i :: 0 <= i < |entries| && entries[i] == Entry(key, v)
                                        && forall j :: i < j < |entries| ==> entries[j].key != key
  {
    if entries != [] {
      var rest := entries[1..];
      LastEntryCounts(rest, key);
      var later := Get(rest, key);
      if later.Some? {
        var i :| 0 <= i < |rest| && rest[i] == Entry(key, later.value)
                 && forall j :: i < j < |rest| ==> rest[j].key != key;
        assert entries[i+1] == rest[i];
        forall j | i + 1 < j < |entries| ensures entries[j].key != key {
          assert entries[j] == rest[j-1];
        }
      } else {
        assert forall j :: 0 < j < |entries| ==> entries[j] == rest[j-1];
      }
    }
  }

  /** The key "content" comes first, then "message", "result" and "data". */
  lemma {:induction false} ContentComesFirst(entries: seq<Entry>, lib: Library)
    requires lib.Sound()
    ensures var content, message := Get(entries, "content"), Get(entries, "message");
            var result, data := Get(entries, "result"), Get(entries, "data");
            (IsText(content, lib) ==> Stringify(Dict(entries), lib) == content.value.s)
            && (!IsText(content, lib) && IsText(message, lib) ==> Stringify(Dict(entries), lib) == message.value.s)
            && (!IsText(content, lib) && !IsText(message, lib) && IsText(result, lib) ==>
                  Stringify(Dict(entries), lib) == result.value.s)
            && (!IsText(content, lib) && !IsText(message, lib) && !IsText(result, lib) && IsText(data, lib) ==>
                  Stringify(Dict(entries), lib) == data.value.s)
  {
    forall i | 0 <= i < 4 && IsText(Get(entries, FIELDS[i]), lib)
               && forall j :: 0 <= j < i ==> !IsText(Get(entries, FIELDS[j]), lib)
      ensures Stringify(Dict(entries), lib) == Get(entries, FIELDS[i]).value.s
    {
      DictGivesUpItsFirstField(entries, lib, i);
    }
    assert FIELDS[0] == "content" && FIELDS[1] == "message" && FIELDS[2] == "result" && FIELDS[3] == "data";
  }
}
