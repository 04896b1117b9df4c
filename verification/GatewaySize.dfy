/** The gateway's measure of a prompt is the length of its JSON text; the client's is not. */
module GatewaySize {
  import opened Bytes
  import opened Json
  import opened Chat
  import opened Commitment
  import opened Token
  import opened Prompt
  import opened PromptBuffer

  /** `approx_prompt_bytes` of the gateway: the UTF-8 length of the printed messages. */
  function GatewayBytes(ms: seq<ChatMessage>): nat {
    |Utf8(Print(Arr(MessagesJson(ms))))|
  }

  /** The bytes JSON escaping adds to a string. */
  function Escapes(s: string): nat { Total(EscapeCost, s) }

  function EscapeCost(c: char): nat { SaturatingSub(ByteLen(EscapeChar(c)), Width(c)) }

  function Total(cost: char -> nat, s: string): nat {
    if s == [] then 0 else cost(s[0]) + Total(cost, s[1..])
  }

  lemma {:induction false} TotalConcat(cost: char -> nat, s: string, t: string)
    ensures Total(cost, s + t) == Total(cost, s) + Total(cost, t)
  {
    if s == [] {
      assert s + t == t;
    } else {
      TotalConcat(cost, s[1..], t);
      assert (s + t)[0] == s[0] && (s + t)[1..] == s[1..] + t;
    }
  }

  function PromptEscapes(ms: seq<ChatMessage>): nat {
    if ms == [] then 0 else Escapes(ms[0].role) + Escapes(ms[0].content) + PromptEscapes(ms[1..])
  }

  predicate Plain(ms: seq<ChatMessage>) { forall m :: m in ms ==> m.extra == [] }

  lemma EscapeGrows(c: char)
    ensures ByteLen(EscapeChar(c)) >= Width(c)
  {
    ByteLenAtLeastChars(EscapeChar(c));
  }

  lemma {:induction false} QuoteTailBytes(s: string)
    ensures ByteLen(QuoteTail(s)) == ByteLen(s) + Escapes(s) + 1
  {
    if s == [] {
      assert ByteLen("\"") == 1;
    } else {
      EscapeGrows(s[0]);
      QuoteTailBytes(s[1..]);
      ByteLenConcat(EscapeChar(s[0]), QuoteTail(s[1..]));
    }
  }

  lemma QuoteBytes(s: string)
    ensures ByteLen(Quote(s)) == ByteLen(s) + Escapes(s) + 2
  {
    QuoteTailBytes(s);
    ByteLenConcat("\"", QuoteTail(s));
    assert ByteLen("\"") == 1;
  }

  predicate NeedsNoEscape(s: string) {
    forall i :: 0 <= i < |s| ==> 0x20 <= s[i] as int < 0x80 && s[i] != '\"' && s[i] != '\\'
  }

  lemma {:induction false} PlainTextBytes(s: string)
    requires NeedsNoEscape(s)
    ensures ByteLen(s) == |s| && Escapes(s) == 0
  {
    if s != [] {
      assert forall i :: 0 <= i < |s[1..]| ==> s[1..][i] == s[i + 1];
      assert EscapeChar(s[0]) == [s[0]] && ByteLen([s[0]]) == Width(s[0]);
      PlainTextBytes(s[1..]);
    }
  }

  lemma EntryBytes(e: Entry)
    requires NeedsNoEscape(e.key)
    ensures ByteLen(PrintEntry(e)) == |e.key| + 3 + ByteLen(Print(e.value))
  {
    PlainTextBytes(e.key);
    QuoteBytes(e.key);
    ByteLenConcat(Quote(e.key), ":");
    ByteLenConcat(Quote(e.key) + ":", Print(e.value));
    assert ByteLen(":") == 1;
  }

  lemma TwoMemberText(e0: Entry, e1: Entry)
    ensures Print(Obj([e0, e1])) == "{" + (PrintEntry(e0) + ("," + PrintEntry(e1) + "}"))
  {
    assert [e0, e1][1..] == [e1] && [e1][1..] == [];
    assert PrintEntries([e1]) == "," + PrintEntry(e1) + PrintEntries([]);
  }

  lemma TwoMemberBytes(e0: Entry, e1: Entry)
    ensures ByteLen(Print(Obj([e0, e1]))) == 3 + ByteLen(PrintEntry(e0)) + ByteLen(PrintEntry(e1))
  {
    TwoMemberText(e0, e1);
    ByteLenConcat(",", PrintEntry(e1));
    ByteLenConcat("," + PrintEntry(e1), "}");
    ByteLenConcat(PrintEntry(e0), "," + PrintEntry(e1) + "}");
    ByteLenConcat("{", PrintEntry(e0) + ("," + PrintEntry(e1) + "}"));
    assert ByteLen("{") == 1 && ByteLen(",") == 1 && ByteLen("}") == 1;
  }

  lemma StringMembersBytes(k0: string, s0: string, k1: string, s1: string)
    requires NeedsNoEscape(k0) && NeedsNoEscape(k1)
    ensures ByteLen(Print(Obj([Entry(k0, Str(s0)), Entry(k1, Str(s1))])))
         == |k0| + |k1| + 13 + ByteLen(s0) + Escapes(s0) + ByteLen(s1) + Escapes(s1)
  {
    TwoMemberBytes(Entry(k0, Str(s0)), Entry(k1, Str(s1)));
    EntryBytes(Entry(k0, Str(s0)));
    EntryBytes(Entry(k1, Str(s1)));
    QuoteBytes(s0);
    QuoteBytes(s1);
  }

  /** The text of a message: two members and 24 bytes of keys and punctuation around its strings. */
  lemma MessageText(m: ChatMessage)
    requires m.extra == []
    ensures ByteLen(Print(MessageJson(m))) == MessageBytes(m) + Escapes(m.role) + Escapes(m.content) + 24
  {
    StringMembersBytes("role", m.role, "content", m.content);
    var es := [Entry("role", Str(m.role)), Entry("content", Str(m.content))];
    assert es + m.extra == es;
  }

  lemma {:induction false} ItemsBytes(ms: seq<ChatMessage>)
    requires Plain(ms)
    ensures ByteLen(PrintItems(MessagesJson(ms))) == PromptBytes(ms) + PromptEscapes(ms) + 25 * |ms| + 1
  {
    if ms == [] {
      assert ByteLen("]") == 1;
    } else {
      var js := MessagesJson(ms);
      assert js[1..] == MessagesJson(ms[1..]);
      MessageText(ms[0]);
      ItemsBytes(ms[1..]);
      ByteLenConcat(",", Print(js[0]));
      ByteLenConcat("," + Print(js[0]), PrintItems(js[1..]));
      assert ByteLen(",") == 1;
    }
  }

  /** The theorem: for `n` messages the gateway counts 25n + 1 bytes more than the client, and the
      escapes on top. */
  lemma GatewayCountsMore(ms: seq<ChatMessage>)
    requires Plain(ms) && ms != []
    ensures GatewayBytes(ms) == PromptBytes(ms) + 25 * |ms| + 1 + PromptEscapes(ms)
  {
    var js := MessagesJson(ms);
    assert js[1..] == MessagesJson(ms[1..]);
    MessageText(ms[0]);
    ItemsBytes(ms[1..]);
    ByteLenConcat(Print(js[0]), PrintItems(js[1..]));
    ByteLenConcat("[", Print(js[0]) + PrintItems(js[1..]));
    assert ByteLen("[") == 1;
    Utf8Length(Print(Arr(js)));
  }

  /** The size check at the gateway. */
  predicate Admitted(ms: seq<ChatMessage>, c: TokenClass) { GatewayBytes(ms) <= MaxPromptBytes(c) }

  /** What the gateway admits is within the client's budget; the other way round needs headroom. */
  lemma AdmittedIsWithinBudget(ms: seq<ChatMessage>, c: TokenClass)
    requires Plain(ms) && ms != []
    ensures Admitted(ms, c) ==> PromptBytes(ms) < MaxPromptBytes(c)
    ensures Admitted(ms, c) <==> PromptBytes(ms) + PromptEscapes(ms) + 25 * |ms| + 1 <= MaxPromptBytes(c)
  {
    GatewayCountsMore(ms);
  }

  lemma EscapesConcat(s: string, t: string)
    ensures Escapes(s + t) == Escapes(s) + Escapes(t)
  {
    TotalConcat(EscapeCost, s, t);
  }

  lemma NewlineEscapes()
    ensures Escapes("\n") == 1
  {
    assert ByteLen("\\n") == 2;
  }

  lemma BlockEscapes(nl: string, b: string, i: string, filler: string, e: string)
    requires Escapes(nl) == 1 && NeedsNoEscape(b) && NeedsNoEscape(i) && NeedsNoEscape(filler) && NeedsNoEscape(e)
    ensures Escapes(Block(nl, b, i, filler, e)) == 5
  {
    PlainTextBytes(b);
    PlainTextBytes(i);
    PlainTextBytes(filler);
    PlainTextBytes(e);
    EscapesConcat(nl, nl);
    EscapesConcat(nl + nl, b);
    EscapesConcat(nl + nl + b, nl);
    EscapesConcat(nl + nl + b + nl, i);
    EscapesConcat(nl + nl + b + nl + i, nl);
    EscapesConcat(nl + nl + b + nl + i + nl, filler);
    EscapesConcat(nl + nl + b + nl + i + nl + filler, nl);
    EscapesConcat(nl + nl + b + nl + i + nl + filler + nl, e);
  }

  /** The markers hold five newlines and nothing else that is escaped. */
  lemma PadBlockEscapes(filler: string)
    requires Wordy(filler)
    ensures Escapes(PadBlock(filler)) == 5
  {
    NewlineEscapes();
    BeginNeedsNone();
    IgnoreNeedsNone();
    EndNeedsNone();
    BlockEscapes("\n", BEGIN, IGNORE, filler, END);
  }

  lemma BeginNeedsNone()
    ensures NeedsNoEscape(BEGIN)
  {
  }

  lemma IgnoreNeedsNone()
    ensures NeedsNoEscape(IGNORE)
  {
  }

  lemma EndNeedsNone()
    ensures NeedsNoEscape(END)
  {
  }

  lemma PaddedEscapes(e: seq<ChatMessage>, out: seq<ChatMessage>, n: nat)
    requires PaddedBy(e, out, n)
    ensures PromptEscapes(out) == PromptEscapes(e) + 5
  {
    var filler :| Wordy(filler) && ByteLen(filler) == n &&
                  out == e[0 := e[0].(content := e[0].content + PadBlock(filler))];
    PadBlockEscapes(filler);
    EscapesConcat(e[0].content, PadBlock(filler));
    assert out[1..] == e[1..];
  }

  /** A prompt padded to its constant size passes the gateway's check exactly when it is a single
      message with at most eight bytes of escapes before padding. Every prompt that holds a system
      message and a user message is refused. */
  lemma PaddedPromptAdmittedExactly(e: seq<ChatMessage>, out: seq<ChatMessage>, c: TokenClass, maxPadding: nat)
    requires RoomToPad(e, MaxPromptBytes(c), maxPadding) && Finished(e, out, MaxPromptBytes(c), true, maxPadding)
    requires Plain(e)
    ensures Admitted(out, c) <==> |e| == 1 && PromptEscapes(e) <= 8
  {
    PaddedMeasures(e, out, MaxPromptBytes(c), maxPadding);
    PaddedPlain(e, out, MaxPromptBytes(c), maxPadding);
    AdmittedIsWithinBudget(out, c);
  }

  lemma PaddedMeasures(e: seq<ChatMessage>, out: seq<ChatMessage>, max: nat, maxPadding: nat)
    requires RoomToPad(e, max, maxPadding) && Finished(e, out, max, true, maxPadding)
    ensures PromptBytes(out) == max - 39 && |out| == |e| && PromptEscapes(out) == PromptEscapes(e) + 5
  {
    PaddedSizeIsConstant(e, out, max, maxPadding);
    FinishedPads(e, out, max, maxPadding);
    PaddedEscapes(e, out, max - PromptBytes(e) - OVERHEAD);
  }

  lemma PaddedPlain(e: seq<ChatMessage>, out: seq<ChatMessage>, max: nat, maxPadding: nat)
    requires Finished(e, out, max, true, maxPadding) && Plain(e)
    ensures Plain(out)
  {
  }
}
