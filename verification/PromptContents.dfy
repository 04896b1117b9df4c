/** What the remote prompt says: which messages it has, what is in them, and that the user's question is
    among them. */
module PromptContents {
  import opened Bytes
  import opened Chat
  import opened Redaction
  import opened RoundTrip
  import opened LocalRedactor
  import opened Matchers
  import opened Separation
  import opened Expressions
  import opened Prompt
  import opened PromptBuffer
  import opened RemotePrompt
  import Agent

  // ---------------------------------------------------------------- redacted texts

  /** What a text is redacted to does not depend on the table. */
  lemma {:induction false} TextIsTheSame(digest: string -> string, b: Book, c: Book, t: string, ps: seq<Pass>)
    requires GoodPasses(ps)
    ensures Redacted(digest, b, t, ps).0 == Redacted(digest, c, t, ps).0
    decreases |ps|
  {
    if ps != [] {
      RedactedFirst(digest, b, t, ps);
      RedactedFirst(digest, c, t, ps);
      TextIsTheSame(digest, PassBook(digest, b, t, ps[0]), PassBook(digest, c, t, ps[0]), PassText(digest, t, ps[0]),
                    ps[1..]);
    }
  }

  lemma {:induction false} MessagesExtend(digest: string -> string, b: Book, ms: seq<ChatMessage>, ps: seq<Pass>)
    requires GoodPasses(ps)
    ensures Extends(b, RedactedMessages(digest, b, ms, ps).1)
    decreases |ms|
  {
    if ms != [] {
      var (text, next) := Redacted(digest, b, ms[0].content, ps);
      RedactedExtends(digest, b, ms[0].content, ps);
      MessagesExtend(digest, next, ms[1..], ps);
      ExtendsTrans(b, next, RedactedMessages(digest, next, ms[1..], ps).1);
    }
  }

  lemma {:induction false} RedactedExtends(digest: string -> string, b: Book, t: string, ps: seq<Pass>)
    requires GoodPasses(ps)
    ensures Extends(b, Redacted(digest, b, t, ps).1)
  {
    RedactedKeeps(digest, b, t, ps);
  }

  /** Message by message: same role, redacted text, and all that was learnt from it is kept. */
  lemma {:induction false} MessageAt(digest: string -> string, b: Book, ms: seq<ChatMessage>, ps: seq<Pass>, i: nat)
    returns (c: Book)
    requires GoodPasses(ps) && i < |ms|
    ensures var (out, last) := RedactedMessages(digest, b, ms, ps);
            && |out| == |ms| && Extends(Redacted(digest, c, ms[i].content, ps).1, last)
            && out[i] == ChatMessage(ms[i].role, Redacted(digest, c, ms[i].content, ps).0, [])
    decreases |ms|
  {
    var (text, next) := Redacted(digest, b, ms[0].content, ps);
    if i == 0 {
      c := b;
      MessagesExtend(digest, next, ms[1..], ps);
      SameLength(digest, next, ms[1..], ps);
    } else {
      c := MessageAt(digest, next, ms[1..], ps, i - 1);
    }
  }

  lemma {:induction false} SameLength(digest: string -> string, b: Book, ms: seq<ChatMessage>, ps: seq<Pass>)
    requires GoodPasses(ps)
    ensures |RedactedMessages(digest, b, ms, ps).0| == |ms|
    decreases |ms|
  {
    if ms != [] { SameLength(digest, Redacted(digest, b, ms[0].content, ps).1, ms[1..], ps); }
  }

  // ---------------------------------------------------------------- the messages of a prompt

  /** How many messages stand in front of the recent ones. */
  function Head(memoryText: string): nat { if Blank(memoryText) then 1 else 2 }

  /** A system message, a second one exactly when there is something to remember, and the recent messages with
      their roles, all of them redacted. */
  lemma BuiltMessages(digest: string -> string, b: Book, systemPrompt: string, memoryText: string,
                      recent: seq<ChatMessage>, mode: RedactMode, p: Patterns, terms: seq<string>)
    requires GoodPatterns(p)
    ensures GoodPasses(Passes(mode, p, terms))
    ensures var (ms, n) := (Built(digest, b, systemPrompt, memoryText, recent, mode, p, terms).0, Head(memoryText));
            var ps := Passes(mode, p, terms);
            && |ms| == n + |recent|
            && ms[0] == ChatMessage("system", Redacted(digest, b, systemPrompt, ps).0 + NOTE, [])
            && (!Blank(memoryText) ==> ms[1] == ChatMessage("system", Redacted(digest, b, memoryText, ps).0, []))
            && forall i :: 0 <= i < |recent| ==>
                 ms[n + i] == ChatMessage(recent[i].role, Redacted(digest, b, recent[i].content, ps).0, [])
  {
    PassesGood(mode, p, terms);
    var ps := Passes(mode, p, terms);
    var (system, b1) := Redacted(digest, b, systemPrompt, ps);
    var (memory, b2) := MemoryMessages(digest, b1, memoryText, ps);
    var (rest, b3) := RedactedMessages(digest, b2, recent, ps);
    SameLength(digest, b2, recent, ps);
    if !Blank(memoryText) { TextIsTheSame(digest, b1, b, memoryText, ps); }
    Joined([ChatMessage("system", system + NOTE, [])], memory, rest);
    forall i | 0 <= i < |recent|
      ensures rest[i] == ChatMessage(recent[i].role, Redacted(digest, b, recent[i].content, ps).0, [])
    {
      var c := MessageAt(digest, b2, recent, ps, i);
      TextIsTheSame(digest, c, b, recent[i].content, ps);
    }
  }

  lemma Joined(a: seq<ChatMessage>, b: seq<ChatMessage>, c: seq<ChatMessage>)
    ensures var t := a + b + c;
            && (forall i :: 0 <= i < |a| ==> t[i] == a[i]) && (forall i :: 0 <= i < |b| ==> t[|a| + i] == b[i])
            && forall i :: 0 <= i < |c| ==> t[|a| + |b| + i] == c[i]
  {
  }

  /** With redaction off everything is said as it is. */
  lemma BuiltVerbatim(digest: string -> string, b: Book, systemPrompt: string, memoryText: string,
                      recent: seq<ChatMessage>, p: Patterns, terms: seq<string>)
    requires GoodPatterns(p)
    ensures var ms := Built(digest, b, systemPrompt, memoryText, recent, RedactMode.None, p, terms).0;
            && |ms| == Head(memoryText) + |recent| && ms[0].content == systemPrompt + NOTE
            && (!Blank(memoryText) ==> ms[1].content == memoryText)
            && forall i :: 0 <= i < |recent| ==>
                 ms[Head(memoryText) + i] == ChatMessage(recent[i].role, recent[i].content, [])
  {
    BuiltMessages(digest, b, systemPrompt, memoryText, recent, RedactMode.None, p, terms);
  }

  /** A recent message that holds nothing to redact is said as it is in every mode. */
  lemma BuiltLeavesAlone(digest: string -> string, b: Book, systemPrompt: string, memoryText: string,
                         recent: seq<ChatMessage>, mode: RedactMode, terms: seq<string>, i: nat)
    requires i < |recent| && (mode == RedactMode.None || NothingToRedact(recent[i].content, mode, terms))
    ensures GoodPatterns(REGEXES)
    ensures var ms := Built(digest, b, systemPrompt, memoryText, recent, mode, REGEXES, terms).0;
            |ms| == Head(memoryText) + |recent|
            && ms[Head(memoryText) + i] == ChatMessage(recent[i].role, recent[i].content, [])
  {
    RegexesAreFaithful();
    BuiltMessages(digest, b, systemPrompt, memoryText, recent, mode, REGEXES, terms);
    LeftAlone(digest, b, recent[i].content, mode, terms);
  }

  /** The table after the prompt was built knows every recent message's placeholders: rehydrated with it, or
      with any plain table that knows it, a recent message comes back exactly when it holds no key. */
  lemma BuiltComesBackIff(digest: string -> string, b: Book, systemPrompt: string, memoryText: string,
                          recent: seq<ChatMessage>, mode: RedactMode, p: Patterns, terms: seq<string>, i: nat,
                          rev: map<string, string>, keys: seq<string>)
    requires IsDigest(digest) && PatternsMatch(p) && i < |recent| && GoodMap(rev) && PlaceholderKeys(rev)
    requires PlainBlocks(recent[i].content, mode, p) && KeyOrder(keys, rev)
    requires (PassesGood(mode, p, terms); CarefulPasses(digest, recent[i].content, Passes(mode, p, terms), rev))
    requires Knows(rev, Built(digest, b, systemPrompt, memoryText, recent, mode, p, terms).1)
    ensures var ms := Built(digest, b, systemPrompt, memoryText, recent, mode, p, terms).0;
            |ms| == Head(memoryText) + |recent|
            && (Sequential(ms[Head(memoryText) + i].content, keys, rev) == recent[i].content
                <==> forall k :: k in rev ==> !Occurs(k, recent[i].content))
  {
    PassesGood(mode, p, terms);
    var ps := Passes(mode, p, terms);
    BuiltMessages(digest, b, systemPrompt, memoryText, recent, mode, p, terms);
    var c := BookOf(digest, b, systemPrompt, memoryText, recent, mode, p, terms, i);
    TextIsTheSame(digest, b, c, recent[i].content, ps);
    RedactorRoundTripIff(digest, c, recent[i].content, mode, p, terms, rev, keys);
  }

  lemma BookOf(digest: string -> string, b: Book, systemPrompt: string, memoryText: string, recent: seq<ChatMessage>,
               mode: RedactMode, p: Patterns, terms: seq<string>, i: nat) returns (c: Book)
    requires GoodPatterns(p) && i < |recent|
    ensures GoodPasses(Passes(mode, p, terms))
    ensures Extends(Redacted(digest, c, recent[i].content, Passes(mode, p, terms)).1,
                    Built(digest, b, systemPrompt, memoryText, recent, mode, p, terms).1)
  {
    PassesGood(mode, p, terms);
    var ps := Passes(mode, p, terms);
    var b1 := Redacted(digest, b, systemPrompt, ps).1;
    var b2 := MemoryMessages(digest, b1, memoryText, ps).1;
    c := MessageAt(digest, b2, recent, ps, i);
  }

  // ---------------------------------------------------------------- the user's question

  lemma SystemIsNoUser(m: ChatMessage)
    requires m.role == "system"
    ensures !IsUser(m)
  {
    assert "system"[0] != "user"[0];
  }

  /** The messages from number `n` on have these roles. */
  predicate RolesBehind(ms: seq<ChatMessage>, ns: seq<ChatMessage>, n: nat) {
    |ms| == n + |ns| && forall i :: 0 <= i < |ns| ==> ms[n + i].role == ns[i].role
  }

  lemma SameRoleAt(ms: seq<ChatMessage>, ns: seq<ChatMessage>, n: nat, j: nat)
    requires RolesBehind(ms, ns, n) && n <= j < |ms|
    ensures IsUser(ms[j]) == IsUser(ns[j - n])
  {
    assert ms[n + (j - n)].role == ns[j - n].role;
  }

  lemma UserBehind(ms: seq<ChatMessage>, ns: seq<ChatMessage>, n: nat, u: nat)
    requires RolesBehind(ms, ns, n) && LastUser(ns) == Some(u)
    ensures LastUser(ms) == Some(n + u)
  {
    SameRoleAt(ms, ns, n, n + u);
    forall j | n + u < j < |ms| ensures !IsUser(ms[j]) { SameRoleAt(ms, ns, n, j); }
    LastUserIs(ms, n + u);
  }

  lemma NoUserBehind(ms: seq<ChatMessage>, ns: seq<ChatMessage>, n: nat)
    requires RolesBehind(ms, ns, n) && LastUser(ns).None? && forall i :: 0 <= i < n ==> !IsUser(ms[i])
    ensures LastUser(ms) == Option.None
  {
    forall j | 0 <= j < |ms| ensures !IsUser(ms[j]) { if n <= j { SameRoleAt(ms, ns, n, j); } }
    NoUserAtAll(ms);
  }

  /** Behind messages that are no user's, and with the same roles. */
  lemma LastUserBehind(ms: seq<ChatMessage>, ns: seq<ChatMessage>, n: nat)
    requires RolesBehind(ms, ns, n) && forall i :: 0 <= i < n ==> !IsUser(ms[i])
    ensures LastUser(ms) == if LastUser(ns).Some? then Some(n + LastUser(ns).value) else Option.None
  {
    if LastUser(ns).Some? { UserBehind(ms, ns, n, LastUser(ns).value); } else { NoUserBehind(ms, ns, n); }
  }

  lemma NoUserAtAll(ms: seq<ChatMessage>)
    requires forall i :: 0 <= i < |ms| ==> !IsUser(ms[i])
    ensures LastUser(ms) == Option.None
  {
  }

  /** The last user message of the prompt is the last user message among the recent ones. */
  lemma BuiltLastUser(digest: string -> string, b: Book, systemPrompt: string, memoryText: string,
                      recent: seq<ChatMessage>, mode: RedactMode, p: Patterns, terms: seq<string>)
    requires GoodPatterns(p)
    ensures LastUser(Built(digest, b, systemPrompt, memoryText, recent, mode, p, terms).0)
         == if LastUser(recent).Some? then Some(Head(memoryText) + LastUser(recent).value) else Option.None
  {
    var ms := Built(digest, b, systemPrompt, memoryText, recent, mode, p, terms).0;
    BuiltMessages(digest, b, systemPrompt, memoryText, recent, mode, p, terms);
    SystemIsNoUser(ms[0]);
    if !Blank(memoryText) { SystemIsNoUser(ms[1]); }
    LastUserBehind(ms, recent, Head(memoryText));
  }

  /** The recent messages of a session end with the question just asked. */
  lemma RecentEndsWithQuestion(messages: seq<ChatMessage>, userMsg: string, n: nat)
    requires n > 0
    ensures var recent := Agent.TakeLast(Agent.Asked(messages, userMsg), n);
            && 1 <= |recent| <= n && LastUser(recent) == Some(|recent| - 1)
            && recent[|recent| - 1] == ChatMessage("user", userMsg, [])
  {
    var recent := Agent.TakeLast(Agent.Asked(messages, userMsg), n);
    LastUserIs(recent, |recent| - 1);
  }

  /** Padding changes only the end of the first message. */
  lemma PaddingKeeps(e: seq<ChatMessage>, out: seq<ChatMessage>, max: nat, pad: bool, maxPadding: nat)
    requires Finished(e, out, max, pad, maxPadding)
    ensures |out| == |e| && (forall i :: 0 < i < |e| ==> out[i] == e[i])
    ensures e != [] ==> out[0].role == e[0].role && e[0].content <= out[0].content
  {
  }

  /** The theorem: the finished prompt ends its user messages with the user's question, redacted, whole or as
      a marked prefix. */
  lemma QuestionArrives(digest: string -> string, b: Book, systemPrompt: string, memoryText: string,
                        recent: seq<ChatMessage>, mode: RedactMode, p: Patterns, terms: seq<string>, max: nat,
                        pad: bool, maxPadding: nat, out: seq<ChatMessage>)
    requires GoodPatterns(p) && LastUser(recent).Some?
    requires Fits(Built(digest, b, systemPrompt, memoryText, recent, mode, p, terms).0, max)
    requires Finished(Enforced(Built(digest, b, systemPrompt, memoryText, recent, mode, p, terms).0, max), out, max,
                      pad, maxPadding)
    ensures GoodPasses(Passes(mode, p, terms))
    ensures var question := Redacted(digest, b, recent[LastUser(recent).value].content, Passes(mode, p, terms)).0;
            LastUser(out).Some? && var q := out[LastUser(out).value].content;
                                   q == question || Shortened(question, q)
  {
    var ms := Built(digest, b, systemPrompt, memoryText, recent, mode, p, terms).0;
    BuiltMessages(digest, b, systemPrompt, memoryText, recent, mode, p, terms);
    BuiltLastUser(digest, b, systemPrompt, memoryText, recent, mode, p, terms);
    QuestionStays(ms, max, LastUser(ms).value, ms[LastUser(ms).value].content);
    FirstStays(ms, max);
    LastUserAfterPadding(Enforced(ms, max), out, max, pad, maxPadding);
  }

  lemma QuestionStays(ms: seq<ChatMessage>, max: nat, u: nat, question: string)
    requires Fits(ms, max) && LastUser(ms) == Some(u) && question == ms[u].content
    ensures var e := Enforced(ms, max);
            LastUser(e).Some? && var q := e[LastUser(e).value].content; q == question || Shortened(question, q)
  {
    EnforcedKeeps(ms, max);
  }

  /** The first message is never dropped, and not truncated when it is a system message. */
  lemma FirstStays(ms: seq<ChatMessage>, max: nat)
    requires ms != [] && ms[0].role == "system"
    ensures Enforced(ms, max) != [] && Enforced(ms, max)[0] == ms[0]
  {
    DroppedFirst(ms, max);
    SystemIsNoUser(ms[0]);
  }

  lemma {:induction false} DroppedFirst(ms: seq<ChatMessage>, max: nat)
    requires ms != []
    ensures Dropped(ms, max) != [] && Dropped(ms, max)[0] == ms[0]
    decreases |ms|
  {
    if PromptBytes(ms) > max && CanDrop(ms) { DroppedFirst(DropOldest(ms), max); }
  }

  lemma LastUserAfterPadding(e: seq<ChatMessage>, out: seq<ChatMessage>, max: nat, pad: bool, maxPadding: nat)
    requires Finished(e, out, max, pad, maxPadding) && e != [] && e[0].role == "system" && LastUser(e).Some?
    ensures LastUser(out) == LastUser(e) && out[LastUser(out).value] == e[LastUser(e).value]
  {
    PaddingKeeps(e, out, max, pad, maxPadding);
    SystemIsNoUser(e[0]);
    LastUserIs(out, LastUser(e).value);
  }
}
