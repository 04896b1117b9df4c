/** The memory section of the remote prompt: summary, selected items and recalled snippets, with empty
    slots filled so that their number says nothing. */
module MemoryText {
  import opened Bytes
  import opened Chat
  import opened LocalRedactor
  import opened MemoryIndex
  import opened LocalIndex

  datatype Options = Options(includeSummary: bool, normalize: bool, maxItems: nat, maxSnippets: nat)

  // ---------------------------------------------------------------- trimming

  function TrimFront(s: string): string {
    if s != "" && White(s[0]) then TrimFront(s[1..]) else s
  }

  function TrimBack(s: string): string {
    if s != "" && White(s[|s| - 1]) then TrimBack(s[..|s| - 1]) else s
  }

  function Trim(s: string): string { TrimBack(TrimFront(s)) }

  lemma BlankConcat(a: string, b: string)
    ensures Blank(a + b) <==> Blank(a) && Blank(b)
  {
    if Blank(a + b) {
      forall i | 0 <= i < |a| ensures White(a[i]) { assert (a + b)[i] == a[i]; }
      forall i | 0 <= i < |b| ensures White(b[i]) { assert (a + b)[|a| + i] == b[i]; }
    }
  }

  lemma BlankParts(s: string, c: char)
    ensures Blank([c] + s) <==> White(c) && Blank(s)
    ensures Blank(s + [c]) <==> White(c) && Blank(s)
  {
    BlankConcat([c], s);
    BlankConcat(s, [c]);
    assert Blank([c]) <==> White([c][0]);
  }

  lemma {:induction false} FrontTrimmed(s: string) returns (n: nat)
    ensures n <= |s| && TrimFront(s) == s[n..] && Blank(s[..n]) && (n < |s| ==> !White(s[n]))
  {
    if s != "" && White(s[0]) {
      var m := FrontTrimmed(s[1..]);
      n := m + 1;
      assert s[1..][m..] == s[n..] && s[..n] == [s[0]] + s[1..][..m];
      BlankParts(s[1..][..m], s[0]);
    } else {
      n := 0;
    }
  }

  lemma {:induction false} BackTrimmed(s: string) returns (n: nat)
    ensures n <= |s| && TrimBack(s) == s[..n] && Blank(s[n..]) && (n > 0 ==> !White(s[n - 1]))
  {
    if s != "" && White(s[|s| - 1]) {
      var t := s[..|s| - 1];
      n := BackTrimmed(t);
      assert t[..n] == s[..n] && s[n..] == t[n..] + [s[|s| - 1]];
      BlankParts(t[n..], s[|s| - 1]);
    } else {
      n := |s|;
    }
  }

  /** Trimming cuts blanks off both ends until none is left there. */
  lemma TrimIs(s: string) returns (a: nat, b: nat)
    ensures a <= b <= |s| && Trim(s) == s[a..b] && Blank(s[..a]) && Blank(s[b..])
    ensures a < b ==> !White(s[a]) && !White(s[b - 1])
  {
    a := FrontTrimmed(s);
    var n := BackTrimmed(s[a..]);
    b := a + n;
    assert s[a..][..n] == s[a..b] && s[a..][n..] == s[b..];
  }

  // ---------------------------------------------------------------- the lines

  function Take(s: string, n: nat): string { if |s| <= n then s else s[..n] }

  function Join(tags: seq<string>): string {
    if tags == [] then "" else if |tags| == 1 then tags[0] else tags[0] + "," + Join(tags[1..])
  }

  /** Item number `i`, from zero. */
  function ItemLine(i: nat, item: Doc): string {
    "- M" + Decimal(i + 1) + (if item.tags == [] then "" else " [" + Join(item.tags) + "]") + ": "
    + Take(item.text, 400) + "\n"
  }

  function SnippetLine(i: nat, msg: ChatMessage): string {
    "- R" + Decimal(i + 1) + " " + msg.role + ": " + Take(msg.content, 300) + "\n"
  }

  function EmptyLine(letter: string, i: nat): string { "- " + letter + Decimal(i + 1) + ": <EMPTY>\n" }

  function Min(a: nat, b: nat): nat { if a < b then a else b }

  /** Every slot has a line when slots are filled, every item that fits has one when they are not. */
  function Slots(n: nat, max: nat, normalize: bool): nat { if normalize then max else Min(n, max) }

  function ItemLines(items: seq<Doc>, o: Options): (lines: seq<string>)
    ensures |lines| == Slots(|items|, o.maxItems, o.normalize)
  {
    seq(Slots(|items|, o.maxItems, o.normalize),
        i requires 0 <= i < Slots(|items|, o.maxItems, o.normalize) =>
          if i < |items| then ItemLine(i, items[i]) else EmptyLine("M", i))
  }

  function SnippetLines(recall: seq<ChatMessage>, o: Options): (lines: seq<string>)
    ensures |lines| == Slots(|recall|, o.maxSnippets, o.normalize)
  {
    seq(Slots(|recall|, o.maxSnippets, o.normalize),
        i requires 0 <= i < Slots(|recall|, o.maxSnippets, o.normalize) =>
          if i < |recall| then SnippetLine(i, recall[i]) else EmptyLine("R", i))
  }

  function Concat(lines: seq<string>): string {
    if lines == [] then "" else Concat(lines[..|lines| - 1]) + lines[|lines| - 1]
  }

  function SummaryPart(summary: string, o: Options): string {
    if o.includeSummary || o.normalize then
      "[Conversation summary (local)]\n" + (if o.includeSummary && !Blank(summary) then Trim(summary) else "<EMPTY>")
      + "\n\n"
    else ""
  }

  function ItemsPart(items: seq<Doc>, o: Options): string {
    if o.normalize || items != [] then "[Selected memory (local)]\n" + Concat(ItemLines(items, o)) + "\n" else ""
  }

  function SnippetsPart(recall: seq<ChatMessage>, o: Options): string {
    if o.maxSnippets > 0 && (o.normalize || recall != []) then
      "[Recall snippets (local)]\n" + Concat(SnippetLines(recall, o)) + "\n"
    else ""
  }

  function Text(summary: string, items: seq<Doc>, recall: seq<ChatMessage>, o: Options): string {
    SummaryPart(summary, o) + ItemsPart(items, o) + SnippetsPart(recall, o)
  }

  // ---------------------------------------------------------------- built line by line

  lemma ConcatSnoc(lines: seq<string>, n: nat)
    requires n < |lines|
    ensures Concat(lines[..n + 1]) == Concat(lines[..n]) + lines[n]
  {
    assert lines[..n + 1][..n] == lines[..n];
  }

  lemma ItemLineAt(items: seq<Doc>, o: Options, i: nat)
    requires i < |ItemLines(items, o)|
    ensures ItemLines(items, o)[i] == if i < |items| then ItemLine(i, items[i]) else EmptyLine("M", i)
  {
  }

  lemma SnippetLineAt(recall: seq<ChatMessage>, o: Options, i: nat)
    requires i < |SnippetLines(recall, o)|
    ensures SnippetLines(recall, o)[i] == if i < |recall| then SnippetLine(i, recall[i]) else EmptyLine("R", i)
  {
  }

  /** One line after the other, from line `from` on. */
  predicate Written(text: string, lines: seq<string>, n: nat, out: string) {
    n <= |lines| && out == text + Concat(lines[..n])
  }

  lemma WrittenSnoc(text: string, lines: seq<string>, n: nat, out: string, line: string)
    requires Written(text, lines, n, out) && n < |lines| && line == lines[n]
    ensures Written(text, lines, n + 1, out + line)
  {
    ConcatSnoc(lines, n);
    Assoc(text, Concat(lines[..n]), line);
  }

  lemma NothingWritten(text: string, lines: seq<string>)
    ensures Written(text, lines, 0, text)
  {
    assert lines[..0] == [] && text + "" == text;
  }

  lemma AllWritten(text: string, lines: seq<string>, out: string)
    requires Written(text, lines, |lines|, out)
    ensures out == text + Concat(lines)
  {
    assert lines[..|lines|] == lines;
  }

  /** Fill the slots that are left. */
  method PushEmpty(soFar: string, letter: string, start: nat, max: nat, ghost text: string, ghost lines: seq<string>)
    returns (out: string)
    requires start <= max == |lines| && Written(text, lines, start, soFar)
    requires forall k :: start <= k < max ==> lines[k] == EmptyLine(letter, k)
    ensures Written(text, lines, max, out)
  {
    var added := start;
    out := soFar;
    while added < max
      invariant start <= added <= max && Written(text, lines, added, out)
    {
      var line := EmptyLine(letter, added);
      WrittenSnoc(text, lines, added, out, line);
      out := out + line;
      added := added + 1;
    }
  }

  method PushItems(text: string, items: seq<Doc>, o: Options) returns (out: string)
    ensures out == text + Concat(ItemLines(items, o))
  {
    ghost var lines := ItemLines(items, o);
    var added := 0;
    out := text;
    NothingWritten(text, lines);
    for i := 0 to Min(|items|, o.maxItems)
      invariant added == i && Written(text, lines, i, out)
    {
      var line := ItemLine(i, items[i]);
      ItemLineAt(items, o, i);
      WrittenSnoc(text, lines, i, out, line);
      out := out + line;
      added := added + 1;
    }
    if o.normalize {
      forall k | added <= k < o.maxItems ensures lines[k] == EmptyLine("M", k) { ItemLineAt(items, o, k); }
      out := PushEmpty(out, "M", added, o.maxItems, text, lines);
    }
    AllWritten(text, lines, out);
  }

  method PushSnippets(text: string, recall: seq<ChatMessage>, o: Options) returns (out: string)
    ensures out == text + Concat(SnippetLines(recall, o))
  {
    ghost var lines := SnippetLines(recall, o);
    var added := 0;
    out := text;
    NothingWritten(text, lines);
    for i := 0 to Min(|recall|, o.maxSnippets)
      invariant added == i && Written(text, lines, i, out)
    {
      var line := SnippetLine(i, recall[i]);
      SnippetLineAt(recall, o, i);
      WrittenSnoc(text, lines, i, out, line);
      out := out + line;
      added := added + 1;
    }
    if o.normalize {
      forall k | added <= k < o.maxSnippets ensures lines[k] == EmptyLine("R", k) { SnippetLineAt(recall, o, k); }
      out := PushEmpty(out, "R", added, o.maxSnippets, text, lines);
    }
    AllWritten(text, lines, out);
  }

  method BuildText(summary: string, items: seq<Doc>, recall: seq<ChatMessage>, o: Options) returns (text: string)
    ensures text == Text(summary, items, recall, o)
  {
    var summaryPart := "";
    if o.includeSummary || o.normalize {
      summaryPart := "[Conversation summary (local)]\n";
      summaryPart := summaryPart + if o.includeSummary && !Blank(summary) then Trim(summary) else "<EMPTY>";
      summaryPart := summaryPart + "\n\n";
    }
    assert summaryPart == SummaryPart(summary, o);
    text := summaryPart;
    var itemsPart := "";
    if o.normalize || items != [] {
      itemsPart := PushItems("[Selected memory (local)]\n", items, o);
      itemsPart := itemsPart + "\n";
    }
    text := text + itemsPart;
    var snippetsPart := "";
    if o.maxSnippets > 0 && (o.normalize || recall != []) {
      snippetsPart := PushSnippets("[Recall snippets (local)]\n", recall, o);
      snippetsPart := snippetsPart + "\n";
    }
    text := text + snippetsPart;
  }

  // ---------------------------------------------------------------- what it says

  /** With empty slots filled, the section has all three parts and as many lines as there are slots, whatever
      is remembered; otherwise one line for each item and snippet up to the limits. */
  lemma SlotsAreFilled(items: seq<Doc>, recall: seq<ChatMessage>, o: Options)
    ensures |ItemLines(items, o)| == if o.normalize then o.maxItems
                                     else if |items| < o.maxItems then |items| else o.maxItems
    ensures |SnippetLines(recall, o)| == if o.normalize then o.maxSnippets
                                         else if |recall| < o.maxSnippets then |recall| else o.maxSnippets
  {
  }

  lemma NotBlank(head: string, rest: string)
    requires head != "" && head[0] == '['
    ensures !Blank(head + rest)
  {
    assert (head + rest)[0] == '[';
  }

  lemma PartsAreBlankIff(summary: string, items: seq<Doc>, recall: seq<ChatMessage>, o: Options)
    ensures Blank(SummaryPart(summary, o)) <==> !o.includeSummary && !o.normalize
    ensures Blank(ItemsPart(items, o)) <==> !o.normalize && items == []
    ensures Blank(SnippetsPart(recall, o)) <==> o.maxSnippets == 0 || (!o.normalize && recall == [])
  {
    NotBlank("[Conversation summary (local)]\n",
             (if o.includeSummary && !Blank(summary) then Trim(summary) else "<EMPTY>") + "\n\n");
    Assoc("[Conversation summary (local)]\n",
          if o.includeSummary && !Blank(summary) then Trim(summary) else "<EMPTY>", "\n\n");
    NotBlank("[Selected memory (local)]\n", Concat(ItemLines(items, o)) + "\n");
    Assoc("[Selected memory (local)]\n", Concat(ItemLines(items, o)), "\n");
    NotBlank("[Recall snippets (local)]\n", Concat(SnippetLines(recall, o)) + "\n");
    Assoc("[Recall snippets (local)]\n", Concat(SnippetLines(recall, o)), "\n");
  }

  /** There is a memory message exactly when the summary is wanted, empty slots are filled, or something was
      found that there is a slot part for. */
  lemma BlankIff(summary: string, items: seq<Doc>, recall: seq<ChatMessage>, o: Options)
    ensures Blank(Text(summary, items, recall, o)) <==>
            !o.includeSummary && !o.normalize && items == [] && (o.maxSnippets == 0 || recall == [])
  {
    PartsAreBlankIff(summary, items, recall, o);
    BlankConcat(SummaryPart(summary, o), ItemsPart(items, o));
    BlankConcat(SummaryPart(summary, o) + ItemsPart(items, o), SnippetsPart(recall, o));
  }

  lemma {:induction false} LineIsSaid(lines: seq<string>, i: nat)
    requires i < |lines|
    ensures exists a: string, b: string :: Concat(lines) == a + lines[i] + b
  {
    var last := |lines| - 1;
    if i < last {
      LineIsSaid(lines[..last], i);
      var a: string, b: string :| Concat(lines[..last]) == a + lines[i] + b;
      assert Concat(lines) == a + lines[i] + (b + lines[last]);
    } else {
      assert Concat(lines) == Concat(lines[..last]) + lines[i] + "";
    }
  }

  ghost predicate Says(t: string, s: string) { exists a: string, b: string :: t == a + s + b }

  lemma SaysInside(a: string, t: string, b: string, s: string)
    requires Says(t, s)
    ensures Says(a + t + b, s)
  {
    var x: string, y: string :| t == x + s + y;
    assert a + t + b == (a + x) + s + (y + b);
  }

  /** Every selected item that has a slot is said, up to 400 characters, under its number; and every recalled
      snippet, up to 300, with its role. */
  lemma EverySlotIsSaid(summary: string, items: seq<Doc>, recall: seq<ChatMessage>, o: Options, i: nat)
    ensures i < |items| && i < o.maxItems ==> Says(Text(summary, items, recall, o), ItemLine(i, items[i]))
    ensures i < |recall| && i < o.maxSnippets ==> Says(Text(summary, items, recall, o), SnippetLine(i, recall[i]))
  {
    var a, b, c := SummaryPart(summary, o), ItemsPart(items, o), SnippetsPart(recall, o);
    if i < |items| && i < o.maxItems {
      LineIsSaid(ItemLines(items, o), i);
      SaysInside("[Selected memory (local)]\n", Concat(ItemLines(items, o)), "\n", ItemLine(i, items[i]));
      SaysInside(a, b, c, ItemLine(i, items[i]));
    }
    if i < |recall| && i < o.maxSnippets {
      LineIsSaid(SnippetLines(recall, o), i);
      SaysInside("[Recall snippets (local)]\n", Concat(SnippetLines(recall, o)), "\n", SnippetLine(i, recall[i]));
      SaysInside(a + b, c, "", SnippetLine(i, recall[i]));
      assert a + b + c + "" == a + b + c;
    }
  }

  /** A line ends with what it is about. */
  lemma LinesEnd(i: nat, item: Doc, msg: ChatMessage)
    ensures Says(ItemLine(i, item), Take(item.text, 400)) && Says(SnippetLine(i, msg), Take(msg.content, 300))
    ensures |item.text| <= 400 ==> Take(item.text, 400) == item.text
    ensures |msg.content| <= 300 ==> Take(msg.content, 300) == msg.content
  {
    var head := "- M" + Decimal(i + 1) + (if item.tags == [] then "" else " [" + Join(item.tags) + "]") + ": ";
    assert ItemLine(i, item) == head + Take(item.text, 400) + "\n";
    assert SnippetLine(i, msg) == ("- R" + Decimal(i + 1) + " " + msg.role + ": ") + Take(msg.content, 300) + "\n";
  }
}
