/** The whole remote prompt: redacted piece by piece, cut to its budget, padded. */
module RemotePrompt {
  import opened Bytes
  import opened Chat
  import opened Redaction
  import opened Leak
  import opened KeyBlock
  import opened Secrets
  import opened LocalRedactor
  import opened RedactorRuns
  import opened Prompt
  import opened PromptBuffer

  const NOTE: string :=
    "\n\n[Privacy note]\n"
    + ("You may see placeholders like <EMAIL_...> "
       + ("or <API_KEY_...>. "
          + ("Do not ask for the underlying values. " + "Treat them as stable identifiers.")))

  // ---------------------------------------------------------------- building

  ghost function RedactedMessages(digest: string -> string, b: Book, ms: seq<ChatMessage>, ps: seq<Pass>)
    : (seq<ChatMessage>, Book)
    requires GoodPasses(ps)
    decreases |ms|
  {
    if ms == [] then ([], b)
    else
      var (text, next) := Redacted(digest, b, ms[0].content, ps);
      var (rest, last) := RedactedMessages(digest, next, ms[1..], ps);
      ([ChatMessage(ms[0].role, text, [])] + rest, last)
  }

  /** The memory section, left out when it is blank. */
  ghost function MemoryMessages(digest: string -> string, b: Book, memoryText: string, ps: seq<Pass>)
    : (seq<ChatMessage>, Book)
    requires GoodPasses(ps)
  {
    if Blank(memoryText) then ([], b)
    else
      var (text, next) := Redacted(digest, b, memoryText, ps);
      ([ChatMessage("system", text, [])], next)
  }

  /** System prompt, memory section and recent messages, in one table. */
  ghost function Built(digest: string -> string, b: Book, systemPrompt: string, memoryText: string,
                       recent: seq<ChatMessage>, mode: RedactMode, p: Patterns, terms: seq<string>)
    : (seq<ChatMessage>, Book)
    requires GoodPatterns(p)
  {
    PassesGood(mode, p, terms);
    var ps := Passes(mode, p, terms);
    var (system, b1) := Redacted(digest, b, systemPrompt, ps);
    var (memory, b2) := MemoryMessages(digest, b1, memoryText, ps);
    var (rest, b3) := RedactedMessages(digest, b2, recent, ps);
    ([ChatMessage("system", system + NOTE, [])] + memory + rest, b3)
  }

  lemma NextMessage(digest: string -> string, b: Book, ms: seq<ChatMessage>, i: nat, ps: seq<Pass>)
    requires GoodPasses(ps) && i < |ms|
    ensures var (text, next) := Redacted(digest, b, ms[i].content, ps);
            var (rest, last) := RedactedMessages(digest, next, ms[i + 1..], ps);
            RedactedMessages(digest, b, ms[i..], ps) == ([ChatMessage(ms[i].role, text, [])] + rest, last)
  {
    assert ms[i..][0] == ms[i] && ms[i..][1..] == ms[i + 1..];
  }

  method RedactRecent(redactor: Redactor, recent: seq<ChatMessage>, mode: RedactMode, extraTerms: seq<string>)
    returns (out: seq<ChatMessage>)
    requires GoodPatterns(redactor.patterns)
    modifies redactor`rev, redactor`entries
    ensures GoodPasses(Passes(mode, redactor.patterns, redactor.customTerms + extraTerms))
    ensures (out, redactor.Known())
         == RedactedMessages(redactor.digest, old(redactor.Known()), recent,
                             Passes(mode, redactor.patterns, redactor.customTerms + extraTerms))
  {
    ghost var ps := Passes(mode, redactor.patterns, redactor.customTerms + extraTerms);
    PassesGood(mode, redactor.patterns, redactor.customTerms + extraTerms);
    ghost var whole := RedactedMessages(redactor.digest, redactor.Known(), recent, ps);
    out := [];
    assert recent[0..] == recent && out + whole.0 == whole.0;
    for i := 0 to |recent|
      invariant (out + RedactedMessages(redactor.digest, redactor.Known(), recent[i..], ps).0,
                 RedactedMessages(redactor.digest, redactor.Known(), recent[i..], ps).1) == whole
    {
      NextMessage(redactor.digest, redactor.Known(), recent, i, ps);
      var redacted := redactor.Redact(recent[i].content, mode, extraTerms);
      Assoc(out, [ChatMessage(recent[i].role, redacted, [])],
            RedactedMessages(redactor.digest, redactor.Known(), recent[i + 1..], ps).0);
      out := out + [ChatMessage(recent[i].role, redacted, [])];
    }
    assert out + [] == out;
  }

  method RedactMemory(redactor: Redactor, memoryText: string, mode: RedactMode, extraTerms: seq<string>)
    returns (out: seq<ChatMessage>)
    requires GoodPatterns(redactor.patterns)
    modifies redactor`rev, redactor`entries
    ensures GoodPasses(Passes(mode, redactor.patterns, redactor.customTerms + extraTerms))
    ensures (out, redactor.Known())
         == MemoryMessages(redactor.digest, old(redactor.Known()), memoryText,
                           Passes(mode, redactor.patterns, redactor.customTerms + extraTerms))
  {
    PassesGood(mode, redactor.patterns, redactor.customTerms + extraTerms);
    if Blank(memoryText) { return []; }
    var memoryRedacted := redactor.Redact(memoryText, mode, extraTerms);
    out := [ChatMessage("system", memoryRedacted, [])];
  }

  method BuildMessages(redactor: Redactor, systemPrompt: string, memoryText: string, recent: seq<ChatMessage>,
                       mode: RedactMode, extraTerms: seq<string>)
    returns (messages: seq<ChatMessage>)
    requires GoodPatterns(redactor.patterns)
    modifies redactor`rev, redactor`entries
    ensures (messages, redactor.Known())
         == Built(redactor.digest, old(redactor.Known()), systemPrompt, memoryText, recent, mode, redactor.patterns,
                  redactor.customTerms + extraTerms)
  {
    var systemContent := redactor.Redact(systemPrompt, mode, extraTerms);
    systemContent := systemContent + NOTE;
    messages := [ChatMessage("system", systemContent, [])];
    var memory := RedactMemory(redactor, memoryText, mode, extraTerms);
    messages := messages + memory;
    var history := RedactRecent(redactor, recent, mode, extraTerms);
    messages := messages + history;
  }

  /** The builder, on the prompts its budget loop finishes with. */
  method BuildRemoteMessages(redactor: Redactor, systemPrompt: string, memoryText: string, recent: seq<ChatMessage>,
                             mode: RedactMode, extraTerms: seq<string>, max: nat, padSystemPrompt: bool,
                             maxPadding: nat)
    returns (messages: seq<ChatMessage>)
    requires GoodPatterns(redactor.patterns)
    requires Fits(Built(redactor.digest, redactor.Known(), systemPrompt, memoryText, recent, mode, redactor.patterns,
                        redactor.customTerms + extraTerms).0, max)
    modifies redactor`rev, redactor`entries
    ensures var (built, b) := Built(redactor.digest, old(redactor.Known()), systemPrompt, memoryText, recent, mode,
                                    redactor.patterns, redactor.customTerms + extraTerms);
            Finished(Enforced(built, max), messages, max, padSystemPrompt, maxPadding) && redactor.Known() == b
  {
    messages := BuildMessages(redactor, systemPrompt, memoryText, recent, mode, extraTerms);
    var buffer := new Buffer(messages);
    buffer.Finish(max, padSystemPrompt, maxPadding);
    messages := buffer.messages;
  }

  // ---------------------------------------------------------------- joining texts

  /** Matches contain `mark`, and neither a line break nor an ellipsis. */
  ghost predicate Confined(p: Pattern, mark: char) {
    forall s :: p(s) ==> mark in s && '\n' !in s && ELLIPSIS !in s
  }

  /** None of the characters that a secret needs. */
  predicate Markless(s: string) { forall i :: 0 <= i < |s| ==> s[i] != '-' && s[i] != '@' && s[i] != '0' }

  /** Begins with a line break or an ellipsis. */
  predicate SafeTail(s: string) { s != [] && (s[0] == '\n' || s[0] == ELLIPSIS) && Markless(s) }

  lemma MarklessConcat(a: string, b: string)
    requires Markless(a) && Markless(b)
    ensures Markless(a + b)
  {
  }

  /** A match in front, or behind, or with the first character of the second part inside. */
  lemma JoinedHasNoMatch(p: Pattern, mark: char, a: string, s: string)
    requires Confined(p, mark) && NoMatch(p, a) && s != [] && (s[0] == '\n' || s[0] == ELLIPSIS) && mark !in s
    ensures NoMatch(p, a + s)
  {
    forall i, j | 0 <= i <= j <= |a + s| ensures !p((a + s)[i..j]) {
      var m := (a + s)[i..j];
      if j <= |a| {
        assert m == a[i..j];
      } else if i <= |a| {
        assert m[|a| - i] == s[0];
      } else {
        assert m == s[i - |a|..j - |a|];
        assert mark !in m;
      }
    }
  }

  lemma JoinedHasNoBlock(begin: Pattern, end: Pattern, a: string, s: string)
    requires Confined(begin, '-') && Confined(end, '-') && NoBlock(begin, end, a) && SafeTail(s)
    ensures NoBlock(begin, end, a + s)
  {
    forall k | 0 <= k <= |a + s| ensures CutClean(begin, end, a + s, k) {
      if k <= |a| {
        assert CutClean(begin, end, a, k);
        assert (a + s)[..k] == a[..k] && (a + s)[k..] == a[k..] + s;
        if NoMatch(end, a[k..]) { JoinedHasNoMatch(end, '-', a[k..], s); }
      } else {
        assert (a + s)[k..] == s[k - |a|..];
        MarklessHasNone(end, '-', s[k - |a|..]);
      }
    }
  }

  lemma MarklessHasNone(p: Pattern, mark: char, s: string)
    requires Confined(p, mark) && mark !in s
    ensures NoMatch(p, s)
  {
    forall i, j | 0 <= i <= j <= |s| ensures !p(s[i..j]) { assert mark !in s[i..j]; }
  }

  // ---------------------------------------------------------------- no secrets

  ghost predicate NoSecrets(t: string) {
    NoBlock(IsBegin, IsEnd, t) && NoMatch(IsApiKey, t) && NoMatch(IsEmail, t) && NoMatch(IsEthAddress, t)
  }

  lemma ApiKeyConfined()
    ensures Confined(IsApiKey, '-')
  {
    forall s | IsApiKey(s) ensures '-' in s && '\n' !in s && ELLIPSIS !in s {
      assert s[..3][0] == 's' && s[..3][1] == 'k' && s[..3][2] == '-';
      assert s[0] == 's' && s[1] == 'k' && s[2] == '-';
    }
  }

  lemma EmailConfined()
    ensures Confined(IsEmail, '@')
  {
    forall s | IsEmail(s) ensures '@' in s && '\n' !in s && ELLIPSIS !in s {
      var at, dot :| 0 < at && at + 1 < dot && dot + 2 < |s| && EmailParts(s, at, dot);
      assert s[at] == '@';
      forall i | 0 <= i < |s| ensures s[i] != '\n' && s[i] != ELLIPSIS {
      }
    }
  }

  lemma EthAddressConfined()
    ensures Confined(IsEthAddress, '0')
  {
    forall s | IsEthAddress(s) ensures '0' in s && '\n' !in s && ELLIPSIS !in s {
      assert s[0] == '0';
    }
  }

  lemma MarkersConfined()
    ensures Confined(IsBegin, '-') && Confined(IsEnd, '-')
  {
    forall s | IsBegin(s) ensures '-' in s && '\n' !in s && ELLIPSIS !in s { MarkerConfined("-----BEGIN ", s); }
    forall s | IsEnd(s) ensures '-' in s && '\n' !in s && ELLIPSIS !in s { MarkerConfined("-----END ", s); }
  }

  lemma MarkerConfined(head: string, s: string)
    requires Marker(head, s) && '\n' !in head && ELLIPSIS !in head
    ensures '-' in s && '\n' !in s && ELLIPSIS !in s
  {
    var n := |s| - |PRIVATE_KEY|;
    forall i | 0 <= i < |s| ensures s[i] != '\n' && s[i] != ELLIPSIS {
      if i < |head| { assert s[i] == s[..|head|][i] == head[i]; }
      else if n <= i { assert s[i] == s[n..][i - n] == PRIVATE_KEY[i - n]; }
    }
    assert s[n + 11] == s[n..][11] == PRIVATE_KEY[11] == '-';
  }

  lemma JoinedIsClean(a: string, s: string)
    requires NoSecrets(a) && SafeTail(s)
    ensures NoSecrets(a + s)
  {
    MarkersConfined();
    ApiKeyConfined();
    EmailConfined();
    EthAddressConfined();
    JoinedHasNoBlock(IsBegin, IsEnd, a, s);
    JoinedHasNoMatch(IsApiKey, '-', a, s);
    JoinedHasNoMatch(IsEmail, '@', a, s);
    JoinedHasNoMatch(IsEthAddress, '0', a, s);
  }

  lemma PrefixIsClean(t: string, k: nat)
    requires NoSecrets(t) && k <= |t|
    ensures NoSecrets(t[..k])
  {
    PartHasNoBlock(IsBegin, IsEnd, t, 0, k);
    PartHasNoMatch(IsApiKey, t, 0, k);
    PartHasNoMatch(IsEmail, t, 0, k);
    PartHasNoMatch(IsEthAddress, t, 0, k);
  }

  lemma HeadingIsSafe()
    ensures SafeTail("\n\n[Privacy note]\n")
  {
  }

  lemma ExamplesAreMarkless()
    ensures Markless("You may see placeholders like <EMAIL_...> ") && Markless("or <API_KEY_...>. ")
  {
  }

  lemma AdviceIsMarkless()
    ensures Markless("Do not ask for the underlying values. ") && Markless("Treat them as stable identifiers.")
  {
  }

  lemma NotePartsAreSafe(a: string, b: string, c: string, d: string, e: string)
    requires SafeTail(a) && Markless(b) && Markless(c) && Markless(d) && Markless(e)
    ensures SafeTail(a + (b + (c + (d + e))))
  {
    MarklessConcat(d, e);
    MarklessConcat(c, d + e);
    MarklessConcat(b, c + (d + e));
    MarklessConcat(a, b + (c + (d + e)));
  }

  lemma NoteIsSafe()
    ensures SafeTail(NOTE)
  {
    HeadingIsSafe();
    ExamplesAreMarkless();
    AdviceIsMarkless();
    NotePartsAreSafe("\n\n[Privacy note]\n", "You may see placeholders like <EMAIL_...> ", "or <API_KEY_...>. ",
                         "Do not ask for the underlying values. ", "Treat them as stable identifiers.");
  }

  lemma MarkersAreMarkless()
    ensures Markless(BEGIN) && Markless(IGNORE) && Markless(END) && SafeTail("\n")
  {
  }

  lemma PadPartsAreSafe(nl: string, b: string, i: string, filler: string, e: string)
    requires SafeTail(nl) && Markless(b) && Markless(i) && Markless(filler) && Markless(e)
    ensures SafeTail(PromptBuffer.Block(nl, b, i, filler, e))
  {
    MarklessConcat(nl, nl);
    MarklessConcat(nl + nl, b);
    MarklessConcat(nl + nl + b, nl);
    MarklessConcat(nl + nl + b + nl, i);
    MarklessConcat(nl + nl + b + nl + i, nl);
    MarklessConcat(nl + nl + b + nl + i + nl, filler);
    MarklessConcat(nl + nl + b + nl + i + nl + filler, nl);
    MarklessConcat(nl + nl + b + nl + i + nl + filler + nl, e);
  }

  lemma PadBlockIsSafe(filler: string)
    requires Wordy(filler)
    ensures SafeTail(PadBlock(filler))
  {
    MarkersAreMarkless();
    PadPartsAreSafe("\n", BEGIN, IGNORE, filler, END);
  }

  // ---------------------------------------------------------------- the prompt

  ghost predicate Clean(ms: seq<ChatMessage>) { forall m :: m in ms ==> NoSecrets(m.content) }

  ghost predicate AllSecretFree(ms: seq<ChatMessage>) { forall m :: m in ms ==> SecretFree(m.content) }

  lemma CleanIsSecretFree(ms: seq<ChatMessage>)
    requires Clean(ms)
    ensures AllSecretFree(ms)
  {
    forall m | m in ms ensures SecretFree(m.content) {
      NoBlockIff(IsBegin, IsEnd, m.content);
      SecretFreeIff(m.content);
    }
  }

  lemma RedactedIsClean(digest: string -> string, b: Book, t: string, mode: RedactMode, p: Patterns,
                        terms: seq<string>)
    requires IsDigest(digest) && FaithfulPatterns(p) && mode != RedactMode.None
    ensures GoodPasses(Passes(mode, p, terms))
    ensures NoSecrets(Redacted(digest, b, t, Passes(mode, p, terms)).0)
  {
    NothingLeaks(digest, b, t, mode, p, terms);
    SecretFreeIff(Redacted(digest, b, t, Passes(mode, p, terms)).0);
    NoBlockIff(IsBegin, IsEnd, Redacted(digest, b, t, Passes(mode, p, terms)).0);
  }

  lemma {:induction false} MessagesAreClean(digest: string -> string, b: Book, ms: seq<ChatMessage>, mode: RedactMode,
                                            p: Patterns, terms: seq<string>)
    requires IsDigest(digest) && FaithfulPatterns(p) && mode != RedactMode.None
    ensures GoodPasses(Passes(mode, p, terms))
    ensures Clean(RedactedMessages(digest, b, ms, Passes(mode, p, terms)).0)
    decreases |ms|
  {
    PassesGood(mode, p, terms);
    if ms != [] {
      RedactedIsClean(digest, b, ms[0].content, mode, p, terms);
      MessagesAreClean(digest, Redacted(digest, b, ms[0].content, Passes(mode, p, terms)).1, ms[1..], mode, p, terms);
    }
  }

  lemma BuiltIsClean(digest: string -> string, b: Book, systemPrompt: string, memoryText: string,
                     recent: seq<ChatMessage>, mode: RedactMode, p: Patterns, terms: seq<string>)
    requires IsDigest(digest) && FaithfulPatterns(p) && mode != RedactMode.None
    ensures Clean(Built(digest, b, systemPrompt, memoryText, recent, mode, p, terms).0)
  {
    PassesGood(mode, p, terms);
    var ps := Passes(mode, p, terms);
    var (system, b1) := Redacted(digest, b, systemPrompt, ps);
    var (memory, b2) := MemoryMessages(digest, b1, memoryText, ps);
    RedactedIsClean(digest, b, systemPrompt, mode, p, terms);
    NoteIsSafe();
    JoinedIsClean(system, NOTE);
    if !Blank(memoryText) { RedactedIsClean(digest, b1, memoryText, mode, p, terms); }
    MessagesAreClean(digest, b2, recent, mode, p, terms);
  }

  /** Dropping and truncating, as often as the loop goes on. Truncation may cut a placeholder in two. */
  lemma {:induction false} TurnsAreClean(ms: seq<ChatMessage>, max: nat, n: nat)
    requires Clean(ms)
    ensures Clean(Turns(ms, max, n))
    decreases n
  {
    if n > 0 && Turn(ms, max).Some? {
      if !CanDrop(ms) { TruncatedIsClean(ms, max); }
      TurnsAreClean(Turn(ms, max).value, max, n - 1);
    }
  }

  lemma TruncatedIsClean(ms: seq<ChatMessage>, max: nat)
    requires Clean(ms) && LastUser(ms).Some? && PromptBytes(ms) > max
    ensures Clean(TruncateUser(ms, max))
  {
    var content := ms[LastUser(ms).value].content;
    var k := SaturatingSub(|content|, PromptBytes(ms) - max + 32);
    PrefixIsClean(content, k);
    JoinedIsClean(content[..k], [ELLIPSIS]);
  }

  lemma {:induction false} DroppedIsClean(ms: seq<ChatMessage>, max: nat)
    requires Clean(ms)
    ensures Clean(Dropped(ms, max))
    decreases |ms|
  {
    if PromptBytes(ms) > max && CanDrop(ms) { DroppedIsClean(DropOldest(ms), max); }
  }

  lemma FinishedIsClean(e: seq<ChatMessage>, out: seq<ChatMessage>, max: nat, pad: bool, maxPadding: nat)
    requires Clean(e) && Finished(e, out, max, pad, maxPadding)
    ensures Clean(out)
  {
    if out != e {
      var n := FillerBytes(PromptBytes(e), max, maxPadding).value;
      var filler :| Wordy(filler) && ByteLen(filler) == n &&
                    out == e[0 := e[0].(content := e[0].content + PadBlock(filler))];
      PadBlockIsSafe(filler);
      JoinedIsClean(e[0].content, PadBlock(filler));
    }
  }

  /** The theorem: unless redaction is off, no message of the prompt that is sent holds a private-key
      block, an API key, an e-mail address or an Ethereum address, whatever the session said, whatever
      the budget cut and whatever was padded. Nor does any prompt the budget loop goes through. */
  lemma NothingLeaksFromPrompt(digest: string -> string, b: Book, systemPrompt: string, memoryText: string,
                               recent: seq<ChatMessage>, mode: RedactMode, p: Patterns, terms: seq<string>, max: nat,
                               pad: bool, maxPadding: nat, out: seq<ChatMessage>, n: nat)
    requires IsDigest(digest) && FaithfulPatterns(p) && mode != RedactMode.None
    requires Finished(Enforced(Built(digest, b, systemPrompt, memoryText, recent, mode, p, terms).0, max), out, max,
                      pad, maxPadding)
    ensures AllSecretFree(out)
    ensures AllSecretFree(Turns(Built(digest, b, systemPrompt, memoryText, recent, mode, p, terms).0, max, n))
  {
    var built := Built(digest, b, systemPrompt, memoryText, recent, mode, p, terms).0;
    BuiltIsClean(digest, b, systemPrompt, memoryText, recent, mode, p, terms);
    TurnsAreClean(built, max, n);
    DroppedIsClean(built, max);
    var d := Dropped(built, max);
    if PromptBytes(d) > max && LastUser(d).Some? { TruncatedIsClean(d, max); }
    FinishedIsClean(Enforced(built, max), out, max, pad, maxPadding);
    CleanIsSecretFree(out);
    CleanIsSecretFree(Turns(built, max, n));
  }
}
