/** JSON values, the compact text serde_json prints for them, and why that text is unambiguous. */
module Json {
  import opened Bytes

  /** An object is a sequence of members in some order; numbers are opaque tokens. */
  datatype Json =
    | Null
    | Bool(b: bool)
    | Num(token: string)
    | Str(s: string)
    | Arr(items: seq<Json>)
    | Obj(entries: seq<Entry>)

  datatype Entry = Entry(key: string, value: Json)

  /** What a JSON text means: objects are unordered (section 4 of RFC 8259). */
  datatype Value =
    | VNull
    | VBool(b: bool)
    | VNum(token: string)
    | VStr(s: string)
    | VArr(items: seq<Value>)
    | VObj(members: map<string, Value>)

  function Meaning(v: Json): Value
    decreases v, 1
  {
    match v
    case Null => VNull
    case Bool(b) => VBool(b)
    case Num(token) => VNum(token)
    case Str(s) => VStr(s)
    case Arr(items) => VArr(Meanings(items))
    case Obj(entries) => VObj(Members(entries))
  }

  function Meanings(items: seq<Json>): (r: seq<Value>)
    ensures |r| == |items|
    decreases items, 0
  {
    if items == [] then [] else [Meaning(items[0])] + Meanings(items[1..])
  }

  function Members(entries: seq<Entry>): map<string, Value>
    decreases entries, 0
  {
    if entries == [] then map[] else Members(entries[1..])[entries[0].key := Meaning(entries[0].value)]
  }

  // ---------------------------------------------------------------- well-formedness

  predicate NumStart(c: char) { '0' <= c <= '9' || c == '-' }

  predicate NumChar(c: char) { NumStart(c) || c == '+' || c == '.' || c == 'e' || c == 'E' }

  predicate NumToken(t: string) { t != [] && NumStart(t[0]) && forall i :: 0 <= i < |t| ==> NumChar(t[i]) }

  predicate DistinctKeys(entries: seq<Entry>) {
    forall i, j :: 0 <= i < j < |entries| ==> entries[i].key != entries[j].key
  }

  predicate Valid(v: Json)
    decreases v, 1
  {
    match v
    case Num(token) => NumToken(token)
    case Arr(items) => ValidItems(items)
    case Obj(entries) => DistinctKeys(entries) && ValidEntries(entries)
    case _ => true
  }

  predicate ValidItems(items: seq<Json>)
    decreases items, 0
  {
    items == [] || (Valid(items[0]) && ValidItems(items[1..]))
  }

  predicate ValidEntries(entries: seq<Entry>)
    decreases entries, 0
  {
    entries == [] || (Valid(entries[0].value) && ValidEntries(entries[1..]))
  }

  // ---------------------------------------------------------------- printing

  /** The escapes of section 7 of RFC 8259, as serde_json chooses them. */
  function EscapeChar(c: char): string {
    if c == '\"' then "\\\""
    else if c == '\\' then "\\\\"
    else if c == 8 as char then "\\b"
    else if c == 9 as char then "\\t"
    else if c == 10 as char then "\\n"
    else if c == 12 as char then "\\f"
    else if c == 13 as char then "\\r"
    else if c as int < 0x20 then "\\u00" + [HexDigit(c as int / 16), HexDigit(c as int % 16)]
    else [c]
  }

  /** The rest of a string literal, closing quote included. */
  function QuoteTail(s: string): string {
    if s == [] then "\"" else EscapeChar(s[0]) + QuoteTail(s[1..])
  }

  function Quote(s: string): string { "\"" + QuoteTail(s) }

  function Print(v: Json): string
    decreases v, 2
  {
    match v
    case Null => "null"
    case Bool(b) => if b then "true" else "false"
    case Num(token) => token
    case Str(s) => Quote(s)
    case Arr(items) => "[" + if items == [] then "]" else Print(items[0]) + PrintItems(items[1..])
    case Obj(entries) => "{" + if entries == [] then "}" else PrintEntry(entries[0]) + PrintEntries(entries[1..])
  }

  /** The items after the first, each with its comma, and the closing bracket. */
  function PrintItems(items: seq<Json>): string
    decreases items, 0
  {
    if items == [] then "]" else "," + Print(items[0]) + PrintItems(items[1..])
  }

  function PrintEntry(e: Entry): string
    decreases e, 0
  {
    Quote(e.key) + ":" + Print(e.value)
  }

  function PrintEntries(entries: seq<Entry>): string
    decreases entries, 1
  {
    if entries == [] then "}" else "," + PrintEntry(entries[0]) + PrintEntries(entries[1..])
  }

  /** What may follow a value. */
  predicate Stop(x: string) { x == [] || x[0] == ',' || x[0] == ']' || x[0] == '}' }
}
