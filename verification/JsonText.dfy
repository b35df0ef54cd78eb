/**
 Concrete JSON values (sections 3 to 7 of RFC 8259): a syntax tree that keeps every
 choice a writer has, such as inner white space and escapes, and its printer. White
 space around a whole text (section 2) is not part of the tree.
 */
module JsonText {

  datatype StrItem = Plain(c: char) | Escape(c: char) | Unicode(hex: string)

  datatype Text =
    | Word(token: string)  // true, false, null or a number
    | Str(items: seq<StrItem>)
    | Arr(lead: string, elems: Elems)
    | Obj(lead: string, members: Members)

  /** Elements of an array: white space follows each value and each comma. */
  datatype Elems = NoElems | Elem(value: Text, after: string, before: string, rest: Elems)

  /** Members of an object: white space also surrounds each colon. */
  datatype Members =
    | NoMembers
    | Member(key: seq<StrItem>, preColon: string, postColon: string, value: Text, after: string, before: string,
             rest: Members)

  predicate IsBlank(s: string) { forall c <- s :: c in " \t\n\r" }

  predicate IsToken(s: string) {
    s != "" && forall c <- s :: 'a' <= c <= 'z' || 'A' <= c <= 'Z' || '0' <= c <= '9' || c in "+-."
  }

  predicate ValidItem(i: StrItem) {
    match i
    case Plain(c) => c >= ' ' && c != '"' && c != '\\'
    case Escape(c) => c in "\"\\/bfnrt"
    case Unicode(hex) => |hex| == 4 && forall c <- hex :: '0' <= c <= '9' || 'a' <= c <= 'f' || 'A' <= c <= 'F'
  }

  predicate ValidItems(items: seq<StrItem>) { forall i <- items :: ValidItem(i) }

  predicate Valid(t: Text) {
    match t
    case Word(token) => IsToken(token)
    case Str(items) => ValidItems(items)
    case Arr(lead, elems) => IsBlank(lead) && ValidElems(elems)
    case Obj(lead, members) => IsBlank(lead) && ValidMembers(members)
  }

  predicate ValidElems(e: Elems) {
    e.Elem? ==> Valid(e.value) && IsBlank(e.after) && IsBlank(e.before) && ValidElems(e.rest)
  }

  predicate ValidMembers(m: Members) {
    m.Member? ==>
      ValidItems(m.key) && IsBlank(m.preColon) && IsBlank(m.postColon) && Valid(m.value)
      && IsBlank(m.after) && IsBlank(m.before) && ValidMembers(m.rest)
  }

  function PrintItem(i: StrItem): string {
    match i
    case Plain(c) => [c]
    case Escape(c) => ['\\', c]
    case Unicode(hex) => "\\u" + hex
  }

  function PrintItems(items: seq<StrItem>): string {
    if items == [] then "" else PrintItem(items[0]) + PrintItems(items[1..])
  }

  function PrintString(items: seq<StrItem>): string { "\"" + PrintItems(items) + "\"" }

  function Print(t: Text): string {
    match t
    case Word(token) => token
    case Str(items) => PrintString(items)
    case Arr(lead, elems) => "[" + (lead + PrintElems(elems)) + "]"
    case Obj(lead, members) => "{" + (lead + PrintMembers(members)) + "}"
  }

  function PrintElems(e: Elems): string {
    match e
    case NoElems => ""
    case Elem(value, after, before, rest) =>
      Print(value) + (after + ((if rest.Elem? then "," + before else "") + PrintElems(rest)))
  }

  function PrintMembers(m: Members): string {
    match m
    case NoMembers => ""
    case Member(key, preColon, postColon, value, after, before, rest) =>
      PrintString(key) + (preColon + ":" + postColon)
      + (Print(value) + (after + ((if rest.Member? then "," + before else "") + PrintMembers(rest))))
  }
}
