/** Prompts that the client builds and that do not get through. */
module PromptWitnesses {
  import opened Bytes
  import opened Chat
  import opened Token
  import opened Prompt
  import opened PromptBuffer
  import opened GatewaySize

  function Repeat(c: char, n: nat): (s: string)
    ensures |s| == n && forall i :: 0 <= i < n ==> s[i] == c
  {
    seq(n, _ => c)
  }

  lemma RoleBytes()
    ensures ByteLen("system") == 6 && ByteLen("user") == 4
  {
    assert |"system"| == 6 && |"user"| == 4;
    AsciiBytes("system");
    AsciiBytes("user");
  }

  lemma TwoMessages(s: ChatMessage, u: ChatMessage)
    requires IsSystem(s) && IsUser(u)
    ensures var ms := [s, u];
            && Systems(ms) == [s] && LastUser(ms) == Some(1)
            && PromptBytes([s]) == MessageBytes(s) && PromptBytes(ms) == MessageBytes(s) + MessageBytes(u)
  {
    var ms := [s, u];
    NotBoth(s);
    NotBoth(u);
    assert ms[1..] == [u] && [u][1..] == [] && [s][1..] == [];
    assert Systems([u]) == [] && Systems(ms) == [s] + Systems([u]);
  }

  /** A system prompt longer than the class limit keeps the budget loop running for ever. */
  lemma LongSystemPromptNeverStops()
    ensures var ms := [ChatMessage("system", Repeat('a', 3000), []), ChatMessage("user", "hi", [])];
            !Stops(ms, MaxPromptBytes(C256))
  {
    var s, u := ChatMessage("system", Repeat('a', 3000), []), ChatMessage("user", "hi", []);
    RoleBytes();
    AsciiBytes(s.content);
    TwoMessages(s, u);
    FitsInClosedForm([s, u], MaxPromptBytes(C256));
    StopsExactlyWhenFits([s, u], MaxPromptBytes(C256));
  }

  /** A system message and a user message that leave room to pad are padded, under the default settings,
      to 39 bytes below the limit, and then refused by the gateway. */
  lemma ShortPairIsRefused(s: ChatMessage, u: ChatMessage, out: seq<ChatMessage>)
    requires IsSystem(s) && IsUser(u) && s.extra == [] && u.extra == [] && MessageBytes(s) + MessageBytes(u) < 1920
    requires Finished([s, u], out, MaxPromptBytes(C256), true, 65536)
    ensures RoomToPad([s, u], MaxPromptBytes(C256), 65536)
    ensures PromptBytes(out) == 2009 && !Admitted(out, C256)
  {
    TwoMessages(s, u);
    PaddedSizeIsConstant([s, u], out, MaxPromptBytes(C256), 65536);
    PaddedPromptAdmittedExactly([s, u], out, C256, 65536);
  }

  lemma RepeatedBytes(role: string, c: char, n: nat)
    requires c as int < 0x80
    ensures MessageBytes(ChatMessage(role, Repeat(c, n), [])) == ByteLen(role) + n
  {
    AsciiBytes(Repeat(c, n));
  }

  /** Thirty characters already. */
  lemma ShortQuestionIsRefused(out: seq<ChatMessage>)
    requires var e := [ChatMessage("system", Repeat('a', 20), []), ChatMessage("user", Repeat('b', 10), [])];
             Finished(e, out, MaxPromptBytes(C256), true, 65536)
    ensures !Admitted(out, C256)
  {
    var s, u := ChatMessage("system", Repeat('a', 20), []), ChatMessage("user", Repeat('b', 10), []);
    RepeatedBytes("system", 'a', 20);
    RepeatedBytes("user", 'b', 10);
    RoleBytes();
    ShortPairIsRefused(s, u, out);
  }
}
