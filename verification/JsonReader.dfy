/** A reader of compact JSON text after section 2 to 7 of RFC 8259, and that it reads what is printed. */
module JsonReader {
  import opened Bytes
  import opened Json

  datatype Read<+T> = Got(value: T, rest: string) | Bad

  // ---------------------------------------------------------------- strings

  function HexValue(c: char): Option<nat> {
    if '0' <= c <= '9' then Some(c as int - '0' as int)
    else if 'a' <= c <= 'f' then Some(c as int - 'a' as int + 10)
    else if 'A' <= c <= 'F' then Some(c as int - 'A' as int + 10)
    else None
  }

  /** Four hex digits, a code point that is no surrogate. */
  function ReadUnicode(t: string): (r: Read<char>)
    ensures r.Got? ==> |r.rest| < |t|
  {
    if |t| < 4 then Bad
    else match (HexValue(t[0]), HexValue(t[1]), HexValue(t[2]), HexValue(t[3]))
      case (Some(a), Some(b), Some(c), Some(d)) =>
        var n := 4096 * a + 256 * b + 16 * c + d;
        if n < 0xD800 || 0xE000 <= n < 0x1_0000 then Got(n as char, t[4..]) else Bad
      case _ => Bad
  }

  /** What follows a backslash. */
  function ReadEscape(t: string): (r: Read<char>)
    ensures r.Got? ==> |r.rest| < |t|
  {
    if t == "" then Bad
    else if t[0] == '\"' || t[0] == '\\' || t[0] == '/' then Got(t[0], t[1..])
    else if t[0] == 'b' then Got(8 as char, t[1..])
    else if t[0] == 't' then Got(9 as char, t[1..])
    else if t[0] == 'n' then Got(10 as char, t[1..])
    else if t[0] == 'f' then Got(12 as char, t[1..])
    else if t[0] == 'r' then Got(13 as char, t[1..])
    else if t[0] == 'u' then ReadUnicode(t[1..])
    else Bad
  }

  /** One character, escaped or not. Control characters must be escaped. */
  function ReadChar(t: string): (r: Read<char>)
    requires t != ""
    ensures r.Got? ==> |r.rest| < |t|
  {
    if t[0] == '\\' then ReadEscape(t[1..]) else if t[0] as int < 0x20 || t[0] == '\"' then Bad else Got(t[0], t[1..])
  }

  /** The rest of a string, up to its closing quote. */
  function ReadTail(t: string): (r: Read<string>)
    ensures r.Got? ==> |r.rest| < |t|
    decreases |t|
  {
    if t == "" then Bad
    else if t[0] == '\"' then Got("", t[1..])
    else
      match ReadChar(t)
      case Bad => Bad
      case Got(c, more) =>
        match ReadTail(more)
        case Bad => Bad
        case Got(s, rest) => Got([c] + s, rest)
  }

  // ---------------------------------------------------------------- values

  /** As many characters as numbers are made of. */
  function NumLen(t: string): (n: nat)
    ensures n <= |t|
  {
    if t == "" || !NumChar(t[0]) then 0 else 1 + NumLen(t[1..])
  }

  predicate Starts(t: string, word: string) { |word| <= |t| && t[..|word|] == word }

  function ReadValue(t: string): (r: Read<Json>)
    ensures r.Got? ==> |r.rest| < |t|
    decreases |t|, 2
  {
    if t == "" then Bad
    else if t[0] == '\"' then
      match ReadTail(t[1..])
      case Bad => Bad
      case Got(s, rest) => Got(Str(s), rest)
    else if t[0] == '[' then
      if |t| > 1 && t[1] == ']' then Got(Arr([]), t[2..])
      else match ReadItems(t[1..])
        case Bad => Bad
        case Got(items, rest) => Got(Arr(items), rest)
    else if t[0] == '{' then
      if |t| > 1 && t[1] == '}' then Got(Obj([]), t[2..])
      else match ReadMembers(t[1..])
        case Bad => Bad
        case Got(entries, rest) => Got(Obj(entries), rest)
    else if Starts(t, "null") then Got(Null, t[4..])
    else if Starts(t, "true") then Got(Bool(true), t[4..])
    else if Starts(t, "false") then Got(Bool(false), t[5..])
    else if NumStart(t[0]) then Got(Num(t[..NumLen(t)]), t[NumLen(t)..])
    else Bad
  }

  /** One value at least, separated by commas, up to the bracket. */
  function ReadItems(t: string): (r: Read<seq<Json>>)
    ensures r.Got? ==> |r.rest| < |t|
    decreases |t|, 3
  {
    match ReadValue(t)
    case Bad => Bad
    case Got(v, more) =>
      if more != "" && more[0] == ']' then Got([v], more[1..])
      else if more != "" && more[0] == ',' then
        match ReadItems(more[1..])
        case Bad => Bad
        case Got(items, rest) => Got([v] + items, rest)
      else Bad
  }

  /** A quoted name, a colon and a value. */
  function ReadMember(t: string): (r: Read<Entry>)
    ensures r.Got? ==> |r.rest| < |t|
    decreases |t|, 3
  {
    if t == "" || t[0] != '\"' then Bad
    else match ReadTail(t[1..])
      case Bad => Bad
      case Got(key, more) =>
        if more == "" || more[0] != ':' then Bad
        else match ReadValue(more[1..])
          case Bad => Bad
          case Got(v, rest) => Got(Entry(key, v), rest)
  }

  function ReadMembers(t: string): (r: Read<seq<Entry>>)
    ensures r.Got? ==> |r.rest| < |t|
    decreases |t|, 4
  {
    match ReadMember(t)
    case Bad => Bad
    case Got(e, more) =>
      if more != "" && more[0] == '}' then Got([e], more[1..])
      else if more != "" && more[0] == ',' then
        match ReadMembers(more[1..])
        case Bad => Bad
        case Got(entries, rest) => Got([e] + entries, rest)
      else Bad
  }

  // ---------------------------------------------------------------- printed strings are read back

  lemma HexDigitReads(n: nat)
    requires n < 16
    ensures HexValue(HexDigit(n)) == Some(n)
  {
  }

  lemma UnicodeReads(c: char, x: string)
    requires c as int < 0x20
    ensures ReadUnicode("00" + [HexDigit(c as int / 16), HexDigit(c as int % 16)] + x) == Got(c, x)
  {
    var t := "00" + [HexDigit(c as int / 16), HexDigit(c as int % 16)] + x;
    HexDigitReads(c as int / 16);
    HexDigitReads(c as int % 16);
    assert t[0] == '0' && t[1] == '0' && t[2] == HexDigit(c as int / 16) && t[3] == HexDigit(c as int % 16);
    assert t[4..] == x;
  }

  lemma CharReads(c: char, y: string)
    ensures EscapeChar(c) + y != "" && ReadChar(EscapeChar(c) + y) == Got(c, y)
  {
    var t := EscapeChar(c) + y;
    if |EscapeChar(c)| == 1 {
      assert t[0] == c && t[1..] == y;
    } else if |EscapeChar(c)| == 2 {
      assert t[0] == '\\' && t[1..][0] == EscapeChar(c)[1] && t[1..][1..] == y;
    } else {
      LongEscapeReads(c, y);
    }
  }

  lemma LongEscapeReads(c: char, y: string)
    requires |EscapeChar(c)| > 2
    ensures EscapeChar(c) + y != "" && ReadChar(EscapeChar(c) + y) == Got(c, y)
  {
    UnicodeReads(c, y);
    LongShape("\\u00", "00", HexDigit(c as int / 16), HexDigit(c as int % 16), y);
  }

  lemma LongShape(head: string, zeros: string, a: char, b: char, y: string)
    requires |head| == 4 && zeros == head[2..]
    ensures var t := head + [a, b] + y; t[0] == head[0] && t[1..][0] == head[1] && t[1..][1..] == zeros + [a, b] + y
  {
  }

  lemma TailStep(t: string, c: char, more: string, s: string, x: string)
    requires t != "" && ReadChar(t) == Got(c, more) && ReadTail(more) == Got(s, x)
    ensures ReadTail(t) == Got([c] + s, x)
  {
  }

  lemma {:induction false} TailReads(s: string, x: string)
    ensures ReadTail(QuoteTail(s) + x) == Got(s, x)
  {
    if s == [] {
      assert ("\"" + x)[1..] == x;
    } else {
      var more := QuoteTail(s[1..]) + x;
      TailReads(s[1..], x);
      CharReads(s[0], more);
      Assoc(EscapeChar(s[0]), QuoteTail(s[1..]), x);
      TailStep(QuoteTail(s) + x, s[0], more, s[1..], x);
      assert [s[0]] + s[1..] == s;
    }
  }

  lemma QuoteReads(s: string, x: string)
    ensures var t := Quote(s) + x; t != "" && t[0] == '\"' && ReadTail(t[1..]) == Got(s, x)
  {
    TailReads(s, x);
    AfterQuote(QuoteTail(s), x);
  }

  lemma AfterQuote(tail: string, x: string)
    ensures var t := "\"" + tail + x; t[0] == '\"' && t[1..] == tail + x
  {
  }

  // ---------------------------------------------------------------- printed values are read back

  lemma {:induction false} NumReads(t: string, x: string)
    requires (forall i :: 0 <= i < |t| ==> NumChar(t[i])) && Stop(x)
    ensures NumLen(t + x) == |t|
  {
    if t == "" {
      assert t + x == x;
    } else {
      NumReads(t[1..], x);
      assert (t + x)[0] == t[0] && (t + x)[1..] == t[1..] + x;
    }
  }

  lemma NumTokenReads(token: string, x: string)
    requires NumToken(token) && Stop(x)
    ensures ReadValue(token + x) == Got(Num(token), x)
  {
    var t := token + x;
    NumReads(token, x);
    assert t[0] == token[0] && t[..|token|] == token && t[|token|..] == x;
    assert !Starts(t, "null") && !Starts(t, "true") && !Starts(t, "false") by { WordStarts(t); }
  }

  lemma WordStarts(t: string)
    requires t != "" && NumStart(t[0])
    ensures !Starts(t, "null") && !Starts(t, "true") && !Starts(t, "false")
  {
    if |t| >= 4 { assert t[..4][0] == t[0] && "null"[0] == 'n' && "true"[0] == 't'; }
    if |t| >= 5 { assert t[..5][0] == t[0] && "false"[0] == 'f'; }
  }

  lemma WordReads(word: string, x: string)
    ensures Starts(word + x, word) && (word + x)[|word|..] == x
  {
  }

  lemma WordsDiffer(x: string)
    ensures !Starts("true" + x, "null") && !Starts("false" + x, "null") && !Starts("false" + x, "true")
  {
    assert ("true" + x)[..4][0] == 't' && ("false" + x)[..4][0] == 'f';
    assert "null"[0] == 'n' && "true"[0] == 't';
  }

  /** The theorem: the printed text of a value, followed by anything a value may be followed by, is read as
      that value, and nothing more is read. */
  lemma {:induction false} PrintReads(v: Json, x: string)
    requires Valid(v) && Stop(x)
    ensures ReadValue(Print(v) + x) == Got(v, x)
    decreases v, 2
  {
    match v {
      case Null => WordReads("null", x);
      case Bool(b) =>
        WordReads("true", x);
        WordReads("false", x);
        WordsDiffer(x);
      case Num(token) => NumTokenReads(token, x);
      case Str(s) => QuoteReads(s, x);
      case Arr(items) => ArrReads(items, x);
      case Obj(entries) => ObjReads(entries, x);
    }
  }

  lemma {:induction false} ArrReads(items: seq<Json>, x: string)
    requires ValidItems(items)
    ensures ReadValue(Print(Arr(items)) + x) == Got(Arr(items), x)
    decreases items, 3
  {
    if items == [] {
      EmptyShape("[]", x);
    } else {
      var u := Print(items[0]) + PrintItems(items[1..]) + x;
      ItemsRead(items, x);
      NotClosed(items[0], PrintItems(items[1..]) + x, ']');
      Assoc(Print(items[0]), PrintItems(items[1..]), x);
      ArrStep(u, items, x);
      assert Print(Arr(items)) + x == "[" + u;
    }
  }

  lemma EmptyShape(brackets: string, x: string)
    requires |brackets| == 2
    ensures var t := brackets + x; |t| >= 2 && t[0] == brackets[0] && t[1] == brackets[1] && t[2..] == x
  {
  }

  lemma ArrStep(u: string, items: seq<Json>, x: string)
    requires u != "" && u[0] != ']' && ReadItems(u) == Got(items, x)
    ensures ReadValue("[" + u) == Got(Arr(items), x)
  {
    assert ("[" + u)[1..] == u;
  }

  lemma ObjStep(u: string, entries: seq<Entry>, x: string)
    requires u != "" && u[0] != '}' && ReadMembers(u) == Got(entries, x)
    ensures ReadValue("{" + u) == Got(Obj(entries), x)
  {
    assert ("{" + u)[1..] == u;
  }

  /** No printed value begins with a closing bracket. */
  lemma NotClosed(v: Json, x: string, close: char)
    requires Valid(v) && (close == ']' || close == '}')
    ensures Print(v) != "" && (Print(v) + x)[0] != close
  {
    assert Print(v) != "";
    assert (Print(v) + x)[0] == Print(v)[0];
  }

  lemma ItemsStep(t: string, v: Json, more: string, items: seq<Json>, x: string)
    requires ReadValue(t) == Got(v, more) && more != ""
    requires (more[0] == ']' && items == [] && x == more[1..])
             || (more[0] == ',' && ReadItems(more[1..]) == Got(items, x))
    ensures ReadItems(t) == Got([v] + items, x)
  {
    assert items == [] ==> [v] + items == [v];
  }

  lemma ItemsShape(items: seq<Json>, x: string)
    ensures var more := PrintItems(items) + x;
            more != "" && if items == [] then more[0] == ']' && more[1..] == x
                          else more[0] == ',' && more[1..] == Print(items[0]) + PrintItems(items[1..]) + x
  {
    var more := PrintItems(items) + x;
    if items == [] {
      assert more == "]" + x;
    } else {
      assert more == "," + (Print(items[0]) + PrintItems(items[1..]) + x);
    }
  }

  lemma {:induction false} ItemsRead(items: seq<Json>, x: string)
    requires ValidItems(items) && items != []
    ensures ReadItems(Print(items[0]) + PrintItems(items[1..]) + x) == Got(items, x)
    decreases items, 2
  {
    var rest := items[1..];
    var more := PrintItems(rest) + x;
    ItemsShape(rest, x);
    PrintReads(items[0], more);
    Assoc(Print(items[0]), PrintItems(rest), x);
    if rest != [] { ItemsRead(rest, x); }
    ItemsStep(Print(items[0]) + more, items[0], more, rest, x);
    assert items == [items[0]] + rest;
  }

  lemma {:induction false} ObjReads(entries: seq<Entry>, x: string)
    requires ValidEntries(entries)
    ensures ReadValue(Print(Obj(entries)) + x) == Got(Obj(entries), x)
    decreases entries, 4
  {
    if entries == [] {
      EmptyShape("{}", x);
    } else {
      var u := PrintEntry(entries[0]) + PrintEntries(entries[1..]) + x;
      MembersRead(entries, x);
      assert u[0] == PrintEntry(entries[0])[0] == '\"';
      ObjStep(u, entries, x);
      assert Print(Obj(entries)) + x == "{" + u;
    }
  }

  lemma MembersStep(t: string, e: Entry, more: string, entries: seq<Entry>, x: string)
    requires ReadMember(t) == Got(e, more) && more != ""
    requires (more[0] == '}' && entries == [] && x == more[1..])
             || (more[0] == ',' && ReadMembers(more[1..]) == Got(entries, x))
    ensures ReadMembers(t) == Got([e] + entries, x)
  {
    assert entries == [] ==> [e] + entries == [e];
  }

  lemma EntriesShape(entries: seq<Entry>, x: string)
    ensures var more := PrintEntries(entries) + x;
            more != "" && if entries == [] then more[0] == '}' && more[1..] == x
                          else more[0] == ',' && more[1..] == PrintEntry(entries[0]) + PrintEntries(entries[1..]) + x
  {
    var more := PrintEntries(entries) + x;
    if entries == [] {
      assert more == "}" + x;
    } else {
      assert more == "," + (PrintEntry(entries[0]) + PrintEntries(entries[1..]) + x);
    }
  }

  lemma {:induction false} MembersRead(entries: seq<Entry>, x: string)
    requires ValidEntries(entries) && entries != []
    ensures ReadMembers(PrintEntry(entries[0]) + PrintEntries(entries[1..]) + x) == Got(entries, x)
    decreases entries, 3
  {
    var rest := entries[1..];
    var more := PrintEntries(rest) + x;
    EntriesShape(rest, x);
    MemberReads(entries[0], more);
    Assoc(PrintEntry(entries[0]), PrintEntries(rest), x);
    if rest != [] { MembersRead(rest, x); }
    MembersStep(PrintEntry(entries[0]) + more, entries[0], more, rest, x);
    assert entries == [entries[0]] + rest;
  }

  lemma MemberStep(t: string, key: string, more: string, v: Json, x: string)
    requires t != "" && t[0] == '\"' && ReadTail(t[1..]) == Got(key, more)
    requires more != "" && more[0] == ':' && ReadValue(more[1..]) == Got(v, x)
    ensures ReadMember(t) == Got(Entry(key, v), x)
  {
  }

  lemma EntryShape(e: Entry, x: string)
    ensures PrintEntry(e) + x == Quote(e.key) + (":" + (Print(e.value) + x))
  {
  }

  lemma {:induction false} MemberReads(e: Entry, x: string)
    requires Valid(e.value) && Stop(x)
    ensures ReadMember(PrintEntry(e) + x) == Got(e, x)
    decreases e, 2
  {
    var value := Print(e.value) + x;
    EntryShape(e, x);
    QuoteReads(e.key, ":" + value);
    PrintReads(e.value, x);
    assert (":" + value)[1..] == value;
    MemberStep(PrintEntry(e) + x, e.key, ":" + value, e.value, x);
  }

  /** A whole text: read as the value it was printed from, with nothing left. */
  lemma TextReads(v: Json)
    requires Valid(v)
    ensures ReadValue(Print(v)) == Got(v, "")
  {
    PrintReads(v, "");
    assert Print(v) + "" == Print(v);
  }

  /** So printing is injective, even when more text follows. */
  lemma PrintSplit(v: Json, w: Json, x: string, y: string)
    requires Valid(v) && Valid(w) && Stop(x) && Stop(y) && Print(v) + x == Print(w) + y
    ensures v == w && x == y
  {
    PrintReads(v, x);
    PrintReads(w, y);
  }

  lemma PrintInjective(v: Json, w: Json)
    requires Valid(v) && Valid(w) && Print(v) == Print(w)
    ensures v == w
  {
    TextReads(v);
    TextReads(w);
  }
}
