# A verified model of the ZeroK inference gateway and client

ZeroK lets a client buy language-model calls with anonymous usage tickets. The client redacts and pads
its prompt, seals it in an envelope, and sends it through a relay. The gateway opens the envelope, checks
that the ticket was not used before, calls the provider, and seals the answer. This project models the
parts of that path where something can go wrong across functions, and proves what they promise.

* **Replay protection** (`NullifierStore`, `NullifierProtocol`, `NullifierSafety`, `NullifierExclusion`,
  `NullifierRefinement`). The nullifier database is a write log with a flushed prefix; a crash keeps some
  prefix at least that long, which is the one assumption about `sled`. `Sled` has the three database
  routines as methods. The protocol is a state machine in which every database call, clock read and
  provider reply of every request is a step of its own. The methods are shown to be runs of it.
* **Recall index** (`MemoryIndex`, `LocalIndex`, `Words`, `Agent`). `MemoryStore` builds postings, lengths and the
  average in place and searches through them; `AgentRuntime` keeps it in step with the session. Both are
  proved against a naive scan of all documents, and `Words` says which words a text has and what is found. Scores are reals; of the logarithm it is assumed that
  ln 1 = 0 and that it is strictly increasing.
* **Redaction** (`Redaction`, `RoundTrip`, `Template`, `Touched`, `Separation`, `Leak`, `KeyBlock`, `Secrets`,
  `Terms`, `LocalRedactor`, `RedactorRuns`, `Matchers`, `Expressions`). A regular expression is a matcher that finds the next non-empty match;
  `Matchers` writes the redactor's own expressions out as such. The salted hash is an arbitrary function
  into 16 hex digits, so placeholders may collide. The hash order of keys is an arbitrary order.
* **The remote prompt** (`MemoryText`, `RemotePrompt`, `PromptContents`, `Prompt`, `DropOrder`, `PromptBuffer`,
  `GatewaySize`). Built, redacted, cut to its budget and padded. Characters take one to four UTF-8 bytes. The filler
  is drawn arbitrarily.
* **Canonical request commitment** (`Json`, `JsonReader`, `Utf8Reader`, `Canonical`, `CanonicalOrder`,
  `Commitment`). The bytes that are hashed, down to the string escapes of section 7 of RFC 8259; the two readers
  follow RFC 8259 and section 3 of RFC 3629 and read back what is written. Numbers are opaque tokens over the characters JSON numbers
  are made of; a temperature may also be infinite, which JSON writes as null.
* **Envelopes** (`Token`, `Transcript`, `TranscriptReader`, `Envelope`, `Relay`). Labels, UUID text and field layout are
  concrete bytes. The cipher (section 2.8 of RFC 8439), the key derivation (section 2 of RFC 5869) and the
  key agreement (section 6.1 of RFC 7748) are ideal: keys and ciphertexts are terms, equal only when made
  from equal parts. Several public-key encodings may name one point, and points of low order are refused.
  A relay can put any ciphertext on the wire that needs no secret shared between an honest client and the
  gateway.
* **Tickets and sessions** (`Tickets`, `Sessions`). The ticket file with writes that may fail, and the
  double-checked session map with interleaved lock sections.
* **Inputs that fail** (`PromptWitnesses`, `RecallWitnesses`, `LedgerWitnesses`, `RedactionWitnesses`).

Classes are used where the source mutates an object, and their methods' postconditions give the whole new
state as a function of the old one. What the source promises is proved about those functions, and for each of
them some theorem says what it computes without using its definition: words as runs of characters, patterns as
their parts, keys in the order of their bytes, texts through a reader, layouts through the fields read back.

## Where the code differs from what one would expect

* `enforce_budget` does not always terminate. `Prompt.StopsExactlyWhenFits` and `Prompt.FitsInClosedForm`
  give the exact condition: the system messages, four bytes for the role, and the shorter of the user's
  content and an ellipsis must fit. A system prompt of 3000 characters does not
  (`PromptWitnesses.LongSystemPromptNeverStops`).
* The index comments promise recall over the session; once messages exceed the cap, or are not indexed at
  startup, the live index and the one rebuilt after a restart differ. `Agent.LiveIndexMatchesRebuilt`
  gives the exact condition, `RecallWitnesses.RestartForgets` a session of two messages.
* A memory item's tags are indexed as `tag:` terms, which no query can contain
  (`MemoryIndex.TagsNeverMatch`, `RecallWitnesses.TagAloneIsNeverFound`).
* A padded prompt with a system and a user message is always 39 bytes short of the class limit by the
  client's measure, and the gateway, whose measure is larger, always refuses it
  (`GatewaySize.PaddedPromptAdmittedExactly`, `PromptWitnesses.ShortPairIsRefused`).
* Redaction is documented as reversible. It need not be in four cases.
  * The text already holds a placeholder of the table. Any text that redaction treats safely otherwise comes
    back exactly when it holds none (`Template.RehydrateUndoesRedactIff`, `Separation.RedactorRoundTripIff`), and a
    text no pass touches comes back exactly when it holds none (`Template.UntouchedComesBackIff`,
    `RedactionWitnesses.KnownPlaceholderIsLost`). Brackets alone do no harm.
  * A later pass touches an earlier placeholder. API keys, e-mail addresses and Ethereum addresses cannot
    (`Separation.MarkIsClear`); phone numbers, URLs and custom terms can. After one did,
    `Touched.SwallowedComesBackIff` and `Touched.SplitComesBackIff` say exactly when the text still comes back:
    in every order of the keys when the later tag is the longer one, in no order when it is the shorter one,
    and when they are equally long it depends on the order. Redacting `http://me@b.cd` in strict mode loses it
    (`RedactionWitnesses.UrlAroundEmailIsLost`), and so does redacting an API key in basic mode when its
    placeholder holds a run of digits (`RedactionWitnesses.PhoneInKeyIsLost`).
  * Two originals share a placeholder, since the hash is cut to eight bytes. The theorems above ask that they do
    not (`RoundTrip.NoCollision`), and `Touched.SharedComesBackIff` says what happens to one match when they do.
  * A match has a bracket inside, as a custom term or a private-key block may. No theorem covers that.
* A custom term need not be gone from the result. Its own pass leaves a bracket-free term exactly when the text
  holds it and its placeholder holds it too (`Terms.TermStaysIff`), which a term made of capitals, underscores and
  hex digits may bring about (`Terms.TermIsGone`, `Terms.TermCustomStays`). What is left lies inside a placeholder
  (`Terms.TermLeftIsInside`), unless a pass for a later term cuts that placeholder in two
  (`RedactionWitnesses.CutTermIsOutside`).
* An infinite temperature, which a number such as 1e300 becomes in 32 bits, commits to the same bytes as no
  temperature (`Commitment.TemperatureIsBoundIff`). Nothing else can be exchanged.
* A returned ticket is available again after a restart exactly when its write failed and no later one
  succeeded (`Tickets.RestartBringsBackIff`, `Tickets.NothingComesBackIff`,
  `LedgerWitnesses.UnsavedTicketIsIssuedTwice`). A ticket dropped because it belongs to another request
  stays in the file until the next successful write (`LedgerWitnesses.DroppedTicketComesBack`).
* `insert_prebuilt` replaces a loaded session without telling those who hold it. That is harmless exactly
  when nobody holds it (`Sessions.InsertKeepsIff`, `Sessions.OneRuntimePerSessionIff`,
  `LedgerWitnesses.LateInsertSplitsSession`).

## Model

| member | source | states |
|---|---|---|
| NullifierStore.DecodeEncode | gateway/src/main.rs:802-832 | a stored value decodes to the status and the 64-bit time it was made from |
| NullifierStore.PendingInjective | gateway/src/main.rs:802-807 | two requests have the same pending value only if they read the same clock value; they may |
| NullifierStore.LookupAppend | gateway/src/main.rs:509-556 | the value of a key is what the last write to it left |
| NullifierStore.Sled.CompareAndSwap | gateway/src/main.rs:841-843 | writes exactly when the expected value is there, and reports whether it was |
| NullifierStore.Sled.Flush | gateway/src/main.rs:845 | a successful flush makes the whole log durable |
| NullifierStore.EncodeLayout | gateway/src/main.rs:802-807 | a stored value is the status byte and the time, highest byte first |
| NullifierStore.StatusLetters | gateway/src/main.rs:509-556 | pending values begin with `p`, spent ones with `s` |
| NullifierStore.StaleIsOld | gateway/src/main.rs:850-856 | what may be taken over is exactly a pending value from more than the time to live ago |
| NullifierStore.ReserveMeans | gateway/src/main.rs:834-870 | a free key is reserved exactly when both of its database calls succeed, an old pending one exactly when all four do, and only a taken key is ever refused; whoever is told so holds the key, durably, and no other key changes; a refusal changes nothing |
| NullifierStore.MarkMeans | gateway/src/main.rs:872-886 | marking succeeds exactly when the key holds this request's value and both calls succeed; then the key is spent, durably |
| NullifierStore.ReleaseMeans | gateway/src/main.rs:888-900 | releasing frees exactly this request's own reservation, durably, and changes nothing else |
| NullifierStore.Sled.ReserveNullifier | gateway/src/main.rs:834-870 | takes a free key, takes over a stale pending one, refuses everything else; with every database error; a free key is taken whenever the database works |
| NullifierStore.Sled.MarkNullifierSpent | gateway/src/main.rs:872-886 | turns exactly this request's pending value into a spent one, or fails |
| NullifierStore.Sled.ReleasePendingNullifier | gateway/src/main.rs:888-900 | removes exactly this request's pending value; anything else is left alone without an error |
| NullifierSafety.StepLog | gateway/src/main.rs:834-900 | no step writes under a key that is spent |
| NullifierSafety.DurablySpentIsAbsorbing | gateway/src/main.rs:872-886 | a spent value that has been flushed stays, in memory and in everything a crash may leave |
| NullifierSafety.WinnerFoundItUnspent | gateway/src/main.rs:872-886 | only a successful mark wins a key, and it found the key unspent |
| NullifierSafety.SafePreserved | gateway/src/main.rs:509-556 | every step of every request keeps: one winner per key, its key spent, and durably so once it is answered |
| NullifierSafety.SafeRun | gateway/src/main.rs:509-556 | the same over whole runs |
| NullifierSafety.AtMostOnePaid | gateway/src/main.rs:509-556 | at most one request per replay key ever gets an Ok payload: any interleaving, any clock, failing flushes, abandoned requests, crashes |
| NullifierSafety.PaidKeyRefusedForever | gateway/src/main.rs:834-870 | after an Ok payload the key is refused for ever, across restarts and whichever database calls fail, and the database stays as it is |
| NullifierExclusion.FreshIsNotStale | gateway/src/main.rs:854-856 | a pending value is stale exactly when it is older than the time to live |
| NullifierExclusion.OnlyOwnerWrites | gateway/src/main.rs:834-900 | under an unexpired reservation nobody but its owner writes, even with equal timestamps |
| NullifierExclusion.ExclusivePreserved | gateway/src/main.rs:834-900 | with a clock that does not go back, every step keeps: at most one unexpired reservation per key, whose pending value the database holds |
| NullifierExclusion.AtMostOneLiveReservation | gateway/src/main.rs:517-550 | the same at every reachable state, despite the gap between reading, clock and takeover |
| NullifierExclusion.TimelyOwnerMarks | gateway/src/main.rs:547-550 | an owner back within the time to live never fails its mark |
| NullifierExclusion.PromisePreserved | gateway/src/main.rs:840-866 | a flushed, unexpired, unreleased reservation survives every step, crashes included |
| NullifierExclusion.FlushedReservationBlocks | gateway/src/main.rs:840-866 | over whole runs nobody else comes to hold the key until the time to live has passed |
| NullifierExclusion.ReservationShutsOthersOut | gateway/src/main.rs:840-866 | from any start: every log a crash may leave blocks the key, and a lone request is refused, whichever database calls fail |
| NullifierExclusion.AbandonedKeyComesBack | gateway/src/main.rs:834-870 | a pending key nobody finishes can be reserved by a lone request exactly when the time to live has passed and none of its four database calls fails |
| NullifierRefinement.ReserveIsRun | gateway/src/main.rs:834-870 | one call of the reservation routine is a run of the protocol, with the same database and outcome, in which the request gives up only on a database error |
| NullifierRefinement.MarkIsRun | gateway/src/main.rs:872-886 | so is one call of the marking routine |
| NullifierRefinement.ReleaseIsRun | gateway/src/main.rs:888-900 | so is one call of the release routine |
| NullifierRefinement.FreeKeyReachesProvider | gateway/src/main.rs:509-535 | a new request for a free key reaches the provider, its pending value durable |
| NullifierRefinement.LoneRequest | gateway/src/main.rs:509-556 | with nobody else about: a request whose provider answers is paid and its key spent, one whose provider fails leaves the key free; both durably, with all other keys as they were |
| MemoryIndex.PostingsExact | client/src/memory_store.rs:163-165 | a posting list holds (d, f) exactly when the term occurs f > 0 times in d, once per document, so there are at most N |
| MemoryIndex.DenominatorPositive | client/src/memory_store.rs:231-233 | every BM25 denominator is positive |
| MemoryIndex.ContributionPositive | client/src/memory_store.rs:209-235 | every idf and every contribution is positive |
| MemoryIndex.ScorePositive | client/src/memory_store.rs:206-238 | a score is positive exactly when document and query share a term |
| MemoryIndex.ContributionOrder | client/src/memory_store.rs:209-235 | rarer terms weigh more, further occurrences add, longer documents count less; strictly |
| MemoryIndex.ContributionClosedForm | client/src/memory_store.rs:209-235 | a contribution is ln((2n+2)/(2df+1)) times 22·tf·avg / (10·tf·avg + 3·avg + 9·dl) |
| MemoryIndex.DedupDistinct | client/src/memory_store.rs:318-328 | a query counts each word once |
| MemoryIndex.TagsNeverMatch | client/src/memory_store.rs:307-316 | a query term's frequency comes from the text alone; tags only add length |
| Words.TokenCount | client/src/memory_store.rs:330-345 | a word is in a text as often as it stands there, in lower case, as a run of alphanumeric characters that cannot be made longer, if it has three bytes and is no stop word; nothing else is |
| Words.TokenIff | client/src/memory_store.rs:330-345 | so a text has exactly those words |
| Words.TokenTotal | client/src/memory_store.rs:330-345 | and as many words as such runs |
| Words.TagTokenIff | client/src/memory_store.rs:307-316 | the other terms are `tag:` and a trimmed lower-case tag that is not blank |
| Words.LengthIs | client/src/memory_store.rs:150-168 | a document's length is its words and its tags that are not blank, at least one |
| Words.AverageIsMean | client/src/memory_store.rs:170-177 | the average length is a mean |
| Words.EligibleIff | client/src/memory_store.rs:179-239 | a document is eligible exactly when it passes the filters and shares a whole word with the query |
| Words.SharedWordIsFound | client/src/memory_store.rs:179-256 | with room for all documents every one of those is found |
| Words.SessionIsFound | client/src/memory_store.rs:264-304 | so every memory item, and every message below the cutoff, that has a word of the query is found |
| Words.DocFreqIs | client/src/memory_store.rs:212-218 | a term's document frequency is the number of documents that contain it |
| Words.OneTermScore | client/src/memory_store.rs:206-239 | what one term adds to a document's score |
| Words.ScoreConcat | client/src/memory_store.rs:206-239 | scores of terms add up |
| Words.RebuiltHolds | client/src/memory_store.rs:100-122 | a rebuild indexes every memory item and exactly the last messages up to the cap |
| Words.DecimalReads | client/src/memory_store.rs:137-148 | indices are written as decimal numerals without leading zeros |
| Words.MessageIds | client/src/memory_store.rs:137-148 | every message document has an id of its own that ends in its index |
| Words.DocFields | client/src/memory_store.rs:124-148 | a document carries what its item or message says |
| RecallWitnesses.TagAloneIsNeverFound | client/src/memory_store.rs:307-316 | a memory item with a tag and no text is never found |
| LocalIndex.MemoryStore.AddDoc | client/src/memory_store.rs:150-168 | adds one document and keeps postings, lengths and average equal to the naive ones |
| LocalIndex.MemoryStore.RecomputeAvgLen | client/src/memory_store.rs:170-177 | the average length of all documents |
| LocalIndex.MemoryStore.RebuildFromSession | client/src/memory_store.rs:100-122 | all memory items, then the most recent messages up to the cap |
| LocalIndex.MemoryStore.AddMemoryItem | client/src/memory_store.rs:124-135 | indexes a memory item without message index or role |
| LocalIndex.MemoryStore.AddMessage | client/src/memory_store.rs:137-148 | indexes a message under its index and role |
| LocalIndex.MemoryStore.ScoreTerm | client/src/memory_store.rs:206-239 | walking one posting list adds that term's contribution to exactly the documents that contain it and pass the filters |
| LocalIndex.MemoryStore.Search | client/src/memory_store.rs:179-256 | a descending selection of at most `limit` among the documents that pass the filters and share a term, by brute-force score; nobody better is left out, ties in any order |
| Agent.ScorePermutation | client/src/memory_store.rs:179-256 | indexes with the same documents in any order score every document alike |
| Agent.LiveIndexMatchesRebuilt | client/src/agent.rs:122-262 | the live index is a permutation of the rebuilt one exactly when nothing was added or messages are indexed and fit the cap; then all scores agree |
| RecallWitnesses.RestartForgets | client/src/memory_store.rs:113-119 | a session whose first message is indexed until the restart |
| Agent.MessageDocIsMessage | client/src/agent.rs:155-164 | every indexed message document names a valid index and has that message's role and text |
| Agent.FoundAreRecallable | client/src/memory_store.rs:222-229 | a message search with a cutoff finds messages below it only |
| Agent.RetrievedIsFromSession | client/src/memory_store.rs:264-304 | retrieved memories are memory items; every snippet is the shortened text of a message before the cutoff, with its role |
| Agent.CutoffIsWindow | client/src/agent.rs:166-170 | the recall cutoff is where the verbatim window starts |
| Agent.SnippetIs | client/src/memory_store.rs:287-297 | a snippet is the text up to 400 characters, or its first 400 and an ellipsis |
| Agent.AgentRuntime.Remember | client/src/agent.rs:122-128 | appends to the session and keeps the index in step |
| Agent.AgentRuntime.RetrieveContext | client/src/memory_store.rs:264-304 | the best memories and the best message snippets, before the cutoff if one is given |
| Agent.AgentRuntime.Ask | client/src/agent.rs:155-178 | the user's message is stored and indexed before anything is recalled |
| Agent.AgentRuntime.SendUserMessage | client/src/agent.rs:155-262 | stores and indexes both messages; the recalled snippets are the best ones, from indices below the verbatim window |
| Redaction.PlaceholderShape | client/src/redaction.rs:187-195 | a placeholder is bracketed and holds only capitals, underscores and hex digits |
| Redaction.ReplaceIsRewrite | client/src/redaction.rs:214-227 | replacing a literal everywhere is rewriting its leftmost matches |
| Redaction.LearnKeeps | client/src/redaction.rs:174-185 | learning never changes a mapping, and keeps map and entries one table with distinct placeholders |
| Redaction.LastEntryWins | client/src/redaction.rs:77-84 | in the loaded map a placeholder stands for what its last entry says |
| RoundTrip.ReplaceExpand | client/src/redaction.rs:165-170 | replacing one key first and the rest at once is replacing all at once |
| RoundTrip.OrderDoesNotMatter | client/src/redaction.rs:156-172 | sequential replacement equals simultaneous replacement, for every order of equally long keys and any older mappings |
| RoundTrip.RewriteExpands | client/src/redaction.rs:198-212 | a pass that touches no placeholder leaves a text with the same expansion |
| RoundTrip.RehydrateExpands | client/src/redaction.rs:102-172 | rehydrating what safe passes made of a text with balanced brackets gives the text with every token the table knows replaced, in every order of the keys |
| Template.TemplateComesBackIff | client/src/redaction.rs:156-172 | characters and placeholders in a row are restored exactly when no key occurs in the restored text, although keys may first come about between them |
| Template.RehydrateChangesNothingIff | client/src/redaction.rs:156-172 | on any text at all, rehydration changes nothing exactly when no key of the table occurs in it |
| Template.RehydrateUndoesRedactIff | client/src/redaction.rs:102-172 | any text at all: redacted by passes whose matches have no bracket, lie inside no key and meet no collision, it is rehydrated to itself exactly when no key of the table occurs in it; any order of the keys, any plain mappings learnt before or later |
| Template.UntouchedComesBackIff | client/src/redaction.rs:102-172 | a text in which no pass finds anything comes back exactly when it holds no key of the table |
| Touched.SwallowedText | client/src/redaction.rs:110-147 | what two passes return when the second matched around the placeholder of the first |
| Touched.SplitText | client/src/redaction.rs:110-147 | and when the second matched inside it |
| Touched.AlwaysBeforeIff | client/src/redaction.rs:161-163 | every longest-first order puts one key before another exactly when it is longer in bytes |
| Touched.NeverBeforeIff | client/src/redaction.rs:161-163 | no such order does exactly when the other is longer |
| Touched.SwallowedComesBackIff | client/src/redaction.rs:102-172 | redacting and rehydrating through a swallowed placeholder, with any good older table: the text comes back in every key order exactly when the later tag is longer, in none exactly when it is shorter, and in a given order exactly when the later key is replaced first |
| Touched.SplitComesBackIff | client/src/redaction.rs:102-172 | the same through a placeholder that a later match split |
| Touched.SharedComesBackIff | client/src/redaction.rs:174-195 | a text with one match comes back in every key order, unless its placeholder stood for another original before: then in none |
| RedactionWitnesses.StrictLosesUrl | client/src/redaction.rs:129-131 | in strict mode an address inside a URL is lost in every key order, with any good older table, when nothing else is found |
| RedactionWitnesses.UrlAroundEmailIsLost | client/src/redaction.rs:102-172 | one such text, with the redactor's own expressions |
| RedactionWitnesses.BasicLosesKey | client/src/redaction.rs:118-122 | in basic mode an API key is lost when the phone pattern finds a number in its placeholder |
| RedactionWitnesses.PhoneInKeyIsLost | client/src/redaction.rs:102-172 | one such key and hash |
| RedactionWitnesses.KnownPlaceholderIsLost | client/src/redaction.rs:102-172 | a text that is a placeholder of the table is left alone by all passes and lost in every key order |
| Matchers.MatcherIsFaithful | client/src/redaction.rs:205-211 | a leftmost matcher reports matches only, and none starts before the one it reports |
| Matchers.RegexesAreFaithful | client/src/redaction.rs:247-265 | the expressions, read as leftmost matchers, satisfy what the redaction theorems ask of a redactor's patterns |
| Secrets.ApiKeyIff | client/src/redaction.rs:252 | an API key is `sk-` and any sixteen or more ASCII letters or digits |
| Secrets.EmailIff | client/src/redaction.rs:254-255 | an e-mail address is any local part, `@`, any domain, a dot and two or more letters |
| Secrets.EthAddressIff | client/src/redaction.rs:262 | an Ethereum address is `0x` and any forty hex digits of either case |
| Secrets.MarkersIff | client/src/redaction.rs:247-250 | the markers of a private key, from their words |
| Secrets.EnclosedIff | client/src/redaction.rs:247-250 | a block is a begin marker, anything, and an end marker |
| Secrets.SecretFreeIff | client/src/redaction.rs:247-262 | a text has none of the four exactly when no position of it shows one, character by character |
| Expressions.WhiteIff | client/src/redaction.rs:257-265 | blanks are the 25 code points with the property White_Space |
| Expressions.PhoneIff | client/src/redaction.rs:257-260 | a phone number is an optional plus, a digit, seven or more digits, blanks, hyphens or parentheses, and a digit |
| Expressions.UrlIff | client/src/redaction.rs:264-265 | a URL is `http://` or `https://` and one or more characters that are not blank |
| Expressions.ApiKeyIsTakenWhole | client/src/redaction.rs:252 | what is found is followed by no letter and no digit |
| Expressions.EmailIsTakenWhole | client/src/redaction.rs:254-255 | what is found is followed by no letter |
| Expressions.PhoneIsTakenWhole | client/src/redaction.rs:257-260 | what is found is followed by no digit |
| Expressions.UrlIsTakenWhole | client/src/redaction.rs:264-265 | what is found ends at a blank or with the text |
| Expressions.OthersAreTakenWhole | client/src/redaction.rs:247-262 | an Ethereum address has 42 characters, and a key block ends with the first end marker that can end it |
| Expressions.LeftAlone | client/src/redaction.rs:102-150 | a text without secrets, phone numbers, custom terms and, in strict mode, URLs is left as it is, and so is every text when redaction is off |
| Expressions.StrictLeavesNoUrl | client/src/redaction.rs:129-131 | strict mode leaves no URL, when no custom terms follow |
| Expressions.PhoneLeftIsInside | client/src/redaction.rs:110-131 | a phone number that is left lies inside a placeholder, when no later pass cuts one |
| Separation.MarkIsClear | client/src/redaction.rs:252-262 | a match with a character no placeholder has, as every API key, e-mail and Ethereum address, lies inside no placeholder |
| Separation.RedactorRoundTripIff | client/src/redaction.rs:102-172 | the round trip of any text in every mode and with any terms, where only phone numbers, URLs, custom terms and the brackets of private-key blocks have to be checked: the text comes back exactly when it holds no placeholder of the table |
| Separation.RedactorRoundTrip | client/src/redaction.rs:102-172 | in particular a text without brackets comes back |
| Leak.OwnPassLeavesNone | client/src/redaction.rs:198-212 | replacing leftmost matches leaves no match |
| Leak.RewriteCreatesNone | client/src/redaction.rs:198-227 | no later placeholder contains or completes a match |
| Leak.PatternIsGone | client/src/redaction.rs:110-147 | a pattern some pass looks for is absent from the final text, whatever passes follow |
| Leak.ApiKeySafe | client/src/redaction.rs:252 | an API key cannot reach into a placeholder |
| Leak.EmailSafe | client/src/redaction.rs:254-255 | nor can an e-mail address |
| Leak.EthAddressSafe | client/src/redaction.rs:262 | nor can an Ethereum address |
| Leak.LiteralFindsLeftmost | client/src/redaction.rs:221-226 | a literal is found at its leftmost occurrence |
| Terms.TermIsGone | client/src/redaction.rs:133-147 | in Basic and Strict modes a bracket-free custom term that holds a character no placeholder holds is absent from the result |
| Terms.TermStaysIff | client/src/redaction.rs:214-227 | on every text, its own pass leaves a bracket-free term exactly when the text and the term's placeholder both hold it |
| Terms.PatternLeftIsInside | client/src/redaction.rs:110-147 | over all passes: what is left of any bracket-free pattern lies inside a placeholder, when no pass after its own cuts one |
| Terms.TermLeftIsInside | client/src/redaction.rs:133-147 | over all passes: what is left of a bracket-free term lies inside a placeholder, when no pass after its own cuts one |
| RedactionWitnesses.CutTermIsOutside | client/src/redaction.rs:133-147 | with the terms `CUSTOM` and `_` the first is left outside all placeholders, whatever the hash |
| Terms.TermCustomStays | client/src/redaction.rs:214-227 | the term `CUSTOM` stays in every text that holds it |
| KeyBlock.KeyBlocksAreGone | client/src/redaction.rs:247-250 | no private-key block is left, though later passes rewrite the text between stray markers |
| KeyBlock.GapHasNoBegin | client/src/redaction.rs:247-250 | in front of the leftmost block there is no lone begin marker |
| LocalRedactor.Redactor.FromState | client/src/redaction.rs:77-84 | loading fails exactly when the salt is not 32 bytes; otherwise the reverse map is the entries' map, a later entry winning |
| LocalRedactor.Redactor.Load | client/src/redaction.rs:77-84 | the map is filled entry by entry |
| LocalRedactor.Redactor.AddCustomTerm | client/src/redaction.rs:90-97 | blank and known terms are ignored, others appended |
| LocalRedactor.Redactor.UpsertMapping | client/src/redaction.rs:174-185 | a known placeholder changes nothing; a new one enters map and entries |
| LocalRedactor.Redactor.RedactRegex | client/src/redaction.rs:198-212 | rewrites every match and learns each |
| LocalRedactor.Redactor.RedactLiteral | client/src/redaction.rs:214-227 | the same for a literal, which is learnt once and only if it occurs |
| LocalRedactor.Redactor.Redact | client/src/redaction.rs:102-150 | all passes of the mode in order, then all non-blank terms; nothing when redaction is off |
| LocalRedactor.Redactor.LongestFirst | client/src/redaction.rs:161-163 | every key once, longest first in bytes |
| LocalRedactor.Redactor.Rehydrate | client/src/redaction.rs:156-172 | replaces the keys one after the other, in some such order |
| LocalRedactor.LiteralLearntOnce | client/src/redaction.rs:221-226 | learning every occurrence of a literal is learning it once |
| RedactorRuns.RunKeepsTable | client/src/redaction.rs:77-185 | over every run, mappings are only added, placeholders stay distinct, and the map is the one the saved entries load into |
| RedactorRuns.EveryEntryCounts | client/src/redaction.rs:77-84 | with distinct placeholders every saved entry is restored |
| RedactorRuns.OldTextsStillRehydrate | client/src/redaction.rs:156-172 | any text redacted safely early in a run, rehydrated after any later calls, comes back exactly when it holds no key of the table as it then is |
| RedactorRuns.KindsInOrder | client/src/redaction.rs:102-147 | which kinds are looked for in which mode and order, and the tag of each |
| RedactorRuns.NothingLeaks | client/src/redaction.rs:102-150 | in Basic and Strict modes no position of the result shows an API key, an e-mail or Ethereum address or a private-key block, character by character |
| Prompt.TruncateBytes | client/src/prompt.rs:216-236 | one truncation suffices exactly when everything else leaves three bytes; otherwise only the ellipsis is left |
| Prompt.EllipsisIsFixed | client/src/prompt.rs:224-236 | a lone ellipsis over budget truncates to itself |
| Prompt.StopsExactlyWhenFits | client/src/prompt.rs:181-239 | the loop terminates exactly on the prompts that fit |
| Prompt.FitsInClosedForm | client/src/prompt.rs:181-239 | for a system message first and a user message: when systems + 4 + min(3, content) bytes fit |
| Prompt.TurnsReachEnforced | client/src/prompt.rs:181-239 | when the loop ends it has dropped the oldest and truncated at most once |
| DropOrder.DropsOldestFirst | client/src/prompt.rs:186-214 | dropping takes exactly the oldest droppable messages, and never one more than needed |
| DropOrder.AlwaysKept | client/src/prompt.rs:186-214 | two messages are never too many, and without a user message the last one stays |
| Prompt.EnforcedKeeps | client/src/prompt.rs:181-239 | within budget; system messages unchanged; survivors in order; last user message whole or as a marked prefix |
| Prompt.TruncationSlack | client/src/prompt.rs:216-236 | a long ASCII message is cut to 29 bytes below the budget |
| PromptBuffer.FindDroppable | client/src/prompt.rs:189-211 | finds the first message that is not first, not a system message and not the last user message |
| PromptBuffer.FillerForPrivacy | client/src/prompt.rs:282-296 | exactly the asked number of bytes, small letters and spaces only, whatever is drawn |
| PromptBuffer.Buffer.TakeTurn | client/src/prompt.rs:186-238 | one turn of the loop, on any prompt |
| PromptBuffer.Buffer.EnforceFor | client/src/prompt.rs:181-239 | any number of turns, on any prompt, whether or not the loop stops |
| PromptBuffer.Buffer.EnforceBudget | client/src/prompt.rs:181-239 | the loop computes the enforced prompt, and nothing changes when it fits already |
| PromptWitnesses.LongSystemPromptNeverStops | client/src/prompt.rs:181-239 | a system prompt of 3000 characters keeps the loop running for ever |
| PromptBuffer.Buffer.TrimFirst | client/src/prompt.rs:272-279 | the safety loop does nothing within budget |
| PromptBuffer.Buffer.PadSystemMessage | client/src/prompt.rs:241-280 | pads the first message by min(room - 128, limit) filler bytes and stays within budget, or changes nothing |
| PromptBuffer.Buffer.Finish | client/src/prompt.rs:160-169 | enforce, pad, enforce: the second enforcing changes nothing |
| PromptBuffer.PadBlockBytes | client/src/prompt.rs:265-268 | the markers take 89 bytes |
| PromptBuffer.EnforcedTwice | client/src/prompt.rs:160-169 | enforcing is idempotent |
| PromptBuffer.PaddedSizeIsConstant | client/src/prompt.rs:241-280 | with more than 128 bytes of room and enough padding allowed the size is the limit less 39 |
| PromptBuffer.PaddedSize | client/src/prompt.rs:241-280 | and in general it grows by 89 and by the room less 128 or the limit on padding, whichever is less |
| RemotePrompt.BuildMessages | client/src/prompt.rs:56-158 | system prompt with the privacy note, memory section unless blank, and recent messages, all redacted into one table |
| RemotePrompt.BuildRemoteMessages | client/src/prompt.rs:56-171 | the same, then enforced, padded and enforced |
| RemotePrompt.JoinedIsClean | client/src/prompt.rs:71 | no secret comes about where a note, an ellipsis or a pad block is appended |
| RemotePrompt.TruncatedIsClean | client/src/prompt.rs:224-236 | nor where the budget cuts a text, though it may cut a placeholder in two |
| RemotePrompt.NothingLeaksFromPrompt | client/src/prompt.rs:56-239 | in Basic and Strict modes no message of the finished prompt, nor of any the budget loop goes through, shows an API key, an e-mail or Ethereum address or a private-key block, character by character |
| PromptContents.BuiltMessages | client/src/prompt.rs:56-158 | the prompt is a system message with the note, a second one exactly when the memory text is not blank, and the recent messages with their roles in order, each redacted |
| PromptContents.BuiltVerbatim | client/src/prompt.rs:56-158 | with redaction off all of it is said as it is |
| PromptContents.BuiltLeavesAlone | client/src/prompt.rs:149-158 | in every mode a recent message with nothing to redact is said as it is |
| PromptContents.BuiltComesBackIff | client/src/prompt.rs:149-158 | and with the table as it then is, each recent message rehydrates to its original exactly when that holds no key, under the conditions of the round trip |
| PromptContents.BuiltLastUser | client/src/prompt.rs:149-158 | the last user message of the prompt is the last one among the recent messages |
| PromptContents.RecentEndsWithQuestion | client/src/agent.rs:155-178 | which is the question just asked |
| PromptContents.PaddingKeeps | client/src/prompt.rs:241-280 | padding changes only the end of the first message |
| PromptContents.QuestionArrives | client/src/prompt.rs:56-172 | the finished prompt's last user message is the redacted question, whole or as a marked prefix |
| MemoryText.BuildText | client/src/prompt.rs:78-139 | the memory section, line by line |
| MemoryText.TrimIs | client/src/prompt.rs:84-85 | trimming cuts blanks off both ends until none is left there |
| MemoryText.SlotsAreFilled | client/src/prompt.rs:93-136 | with normalisation there are as many lines as slots, whatever is remembered |
| MemoryText.BlankIff | client/src/prompt.rs:141 | there is a memory message exactly when one of its parts is wanted |
| MemoryText.EverySlotIsSaid | client/src/prompt.rs:96-130 | every item and snippet that has a slot is said under its number |
| MemoryText.LinesEnd | client/src/prompt.rs:102-126 | with its text up to 400 or 300 characters |
| GatewaySize.GatewayCountsMore | gateway/src/main.rs:785-794 | the gateway's measure is the client's plus 25n + 1 plus the escapes |
| GatewaySize.AdmittedIsWithinBudget | gateway/src/main.rs:479-485 | admission implies the client's bound, and is equivalent to exactly that headroom |
| GatewaySize.PaddedMeasures | client/src/prompt.rs:241-280 | padding fixes the size, keeps the number of messages and adds five escapes |
| GatewaySize.PaddedPromptAdmittedExactly | gateway/src/main.rs:479-485 | a padded prompt is admitted exactly when it was one message with at most eight bytes of escapes |
| PromptWitnesses.ShortPairIsRefused | gateway/src/main.rs:479-485 | a system and a user message with room to pad, under the default settings, are refused |
| PromptWitnesses.ShortQuestionIsRefused | gateway/src/main.rs:479-485 | one such prompt |
| JsonReader.PrintReads | common/src/types.rs:86 | printed text, followed by anything a value may be followed by, is read by a JSON reader as the value it was printed from |
| JsonReader.TextReads | common/src/types.rs:86 | a whole printed text is read back |
| JsonReader.PrintSplit | common/src/types.rs:86 | a printed value ends where it ends: value and rest are determined by the text |
| JsonReader.PrintInjective | common/src/types.rs:86 | printed text determines the value |
| Canonical.CanonicalizeJson | common/src/types.rs:97-110 | sorting entries and recursing yields the canonical form |
| Canonical.SortContents | common/src/types.rs:100-101 | sorting loses and adds no entry |
| Canonical.CanonSort | common/src/types.rs:100-105 | sorting and then recursing, or recursing and then sorting, is the same |
| Canonical.CanonKeepsMeaning | common/src/types.rs:97-110 | canonicalising changes no value |
| Canonical.CanonDetermined | common/src/types.rs:97-110 | equal values have the same canonical form, whatever order their keys came in |
| Canonical.CanonIdempotent | common/src/types.rs:97-110 | canonicalising twice is canonicalising once |
| Canonical.CanonicalTextIsFaithful | common/src/types.rs:85-86 | canonical texts agree exactly when the values agree up to key order at every depth |
| CanonicalOrder.LessIff | common/src/types.rs:101 | one key is smaller than another exactly when, at the first place where they differ, it ends or has the smaller character |
| CanonicalOrder.ByteOrder | common/src/types.rs:101 | which is the order of their UTF-8 bytes |
| CanonicalOrder.CanonInOrder | common/src/types.rs:97-110 | in every object of a canonical value, at every depth, each key is smaller than all that follow, in characters and in bytes |
| CanonicalOrder.CanonicalRequest | common/src/types.rs:75-85 | the canonical request: eight members under their names in ascending order, each with its value, the ticket not among them |
| CanonicalOrder.CommittedTextReads | common/src/types.rs:75-86 | the committed text, read as JSON, is that request |
| CanonicalOrder.PreimageLayout | common/src/types.rs:86-90 | what is hashed is the label, eight bytes for the length and the text |
| CanonicalOrder.LabelEndsInZero | common/src/types.rs:88 | the label ends in a zero byte |
| CanonicalOrder.ClassNames | common/src/token.rs:15-26 | a class is written as `c` and its number of tokens |
| Utf8Reader.Utf8Reads | common/src/types.rs:86 | encoded text is read back by a UTF-8 decoder |
| Utf8Reader.Utf8Injective | common/src/types.rs:86 | UTF-8 loses nothing |
| Commitment.SameMessagesMeaning | common/src/types.rs:78 | message lists project to one value exactly when role, content and extra fields agree |
| Commitment.CommitmentBindsRequest | common/src/types.rs:74-95 | two requests have the same framed preimage exactly when they agree on everything but the ticket, maps compared as maps and an infinite temperature counting as none |
| Commitment.TemperatureIsBoundIff | common/src/types.rs:80 | requests that differ in the temperature only have the same preimage exactly when neither temperature is a finite number |
| Commitment.AuthorizationPreimage | common/src/types.rs:74-95 | project, canonicalise, print, frame |
| Token.TrimZeroPadding | common/src/token.rs:105-111 | the longest prefix not ending in zero, the rest being zeros |
| Token.PadTrimRoundTrip | common/src/token.rs:93-111 | trimming undoes padding exactly for payloads that do not end in a zero byte |
| Token.PaddedIs | common/src/token.rs:93-102 | padding keeps the data, adds only zeros and gives exactly the target length, unless the data is too long |
| Token.ClassTables | common/src/token.rs:25-79 | how the tables of sizes belong together |
| Token.ClassesAscend | common/src/token.rs:25-79 | larger classes allow more of everything |
| Transcript.UuidTextInjective | common/src/envelope.rs:525 | the text of an id determines the id |
| Transcript.BindingMaterialInjective | common/src/envelope.rs:512-530 | equal material means equal label and equal transcript, field by field |
| Transcript.AadInjective | common/src/envelope.rs:465-490 | authenticated data determines transcript and direction |
| Transcript.HkdfInfoInjective | common/src/envelope.rs:453-463 | the key label determines class and direction |
| TranscriptReader.UuidReads | common/src/envelope.rs:525 | the text of an id is read back as hex digits in groups of 8, 4, 4, 4 and 12 |
| TranscriptReader.SaltMaterialReads | common/src/envelope.rs:492-530 | the key-derivation material is read back field by field, behind its label |
| TranscriptReader.AadReads | common/src/envelope.rs:465-490 | and so is the authenticated data, with 1 or 2 behind it |
| TranscriptReader.HkdfInfoReads | common/src/envelope.rs:453-463 | the key label is its text and the class |
| Transcript.FillBindingMaterial | common/src/envelope.rs:512-530 | the buffer filled field by field |
| Transcript.FillHkdfInfo | common/src/envelope.rs:453-463 | the key label |
| Transcript.FillAadBytes | common/src/envelope.rs:465-490 | the authenticated data |
| Envelope.SealRequestForGateway | common/src/envelope.rs:205-290 | the sealed request and the client's context, or the first error |
| Envelope.SealResponseAtGateway | common/src/envelope.rs:355-426 | the sealed response echoing the request's fields, or the first error |
| Envelope.CipherBinds | common/src/envelope.rs:428-490 | a ciphertext belongs to one transcript, direction, nonce and plaintext |
| Envelope.KeyBinds | common/src/envelope.rs:428-463 | so does a key to one shared secret, transcript and direction |
| Envelope.GatewayOpensExactly | common/src/envelope.rs:295-350 | the gateway opens exactly the ciphertexts made as requests for the transcript the envelope claims |
| Envelope.OpenedClaims | common/src/envelope.rs:295-313 | an envelope whose fields do not decode, or of another version, is refused |
| Envelope.GatewayRefusesExactly | common/src/envelope.rs:295-350 | which error the gateway gives for what it does not open |
| Envelope.ClientRefusesExactly | common/src/envelope.rs:82-151 | which error the client gives for a response |
| Envelope.SealingRefusesExactly | common/src/envelope.rs:355-426 | on what sealing an answer fails |
| Envelope.ResponseEchoes | common/src/envelope.rs:355-426 | a response is sealed exactly when version, length and key allow it, and echoes every field of the request |
| Envelope.ClientOpensExactly | common/src/envelope.rs:82-151 | the client opens exactly the ciphertexts made as responses for its own transcript |
| Envelope.RequestRoundTrip | common/src/envelope.rs:205-350 | a sealed request opens, to its payload exactly when that does not end in a zero byte; sealing fails exactly when it is too long or the key is of low order |
| Envelope.AnswerRoundTrip | common/src/envelope.rs:355-426 | so does a response, for any request envelope with the client's transcript |
| Envelope.ExchangeRoundTrip | common/src/envelope.rs:205-426 | the whole exchange |
| Relay.StepKeepsGood | common/src/envelope.rs:205-426 | every step keeps: each ciphertext under a secret of an honest client and the gateway is that client's request or an answer to a request the gateway opened |
| Relay.GatewayOpensWhatWasSent | common/src/envelope.rs:295-350 | what opens under an honest key was sealed by that client, for the same version, class, id, nonce and keys |
| Relay.AcceptedIsTheAnswer | common/src/envelope.rs:82-151 | an accepted response carries exactly the payload the gateway sealed for this client's transcript and this client's own request, however envelopes are mixed |
| Tickets.Position | client/src/tickets.rs:104-107 | the first ticket of the class, or the very first when there is none |
| Tickets.NextIs | client/src/tickets.rs:93-119 | one call: the chosen ticket leaves, the others keep their order, and the file changes only with a returned ticket |
| Tickets.FileTicketSource.NextTicket | client/src/tickets.rs:102-119 | returns a ticket of this commitment, drops one of another, fails when empty |
| Tickets.TicketsAreConserved | client/src/tickets.rs:81-119 | over all runs, with failing writes and restarts: what was there at first, or came back after it was returned, is in the file, returned or lost, as multisets; and the file holds what is in memory and what could not be taken out of it |
| Tickets.RestartBringsBackIff | client/src/tickets.rs:81-119 | over all runs: a restart brings returned tickets back exactly when one was issued after the last successful write |
| Tickets.NothingComesBackIff | client/src/tickets.rs:81-119 | over all runs: no returned ticket becomes available again exactly when every issue was written out before the next restart |
| Tickets.NoneReturnedTwice | client/src/tickets.rs:81-119 | then none is returned more often than it was in the file |
| Tickets.OneLifeConserves | client/src/tickets.rs:102-119 | within one process, writes failing or not: initial = remaining + returned + dropped |
| Tickets.ReturnedAgainIff | client/src/tickets.rs:93-98 | in any state, the ticket a call returns is back after a restart exactly when its write failed |
| LedgerWitnesses.UnsavedTicketIsIssuedTwice | client/src/tickets.rs:102-119 | a ticket that is returned twice |
| LedgerWitnesses.DroppedTicketComesBack | client/src/tickets.rs:112-116 | a dropped ticket that is there again after a restart |
| Sessions.PathsAreDistinct | client/src/manager.rs:99-108 | two sessions share a file exactly when the default's override points at the other |
| Sessions.ValidSessionIdIff | client/src/manager.rs:84-97 | an id is one to sixty-four ASCII letters, digits, hyphens and underscores |
| Sessions.OwnPathStaysInside | client/src/manager.rs:99-108 | a session's own file lies in the sessions directory itself |
| Sessions.LoneCaller | client/src/manager.rs:190-235 | one caller with nobody in between is refused, given the loaded runtime, given a new one, or told that loading failed |
| Sessions.InsertKeepsIff | client/src/manager.rs:237-242 | inserting a prebuilt runtime keeps callers and map consistent exactly when nobody holds a runtime for that id |
| Sessions.StepKeepsIff | client/src/manager.rs:190-242 | every other lock section keeps: callers hold what the map holds, and no two ids share a runtime |
| Sessions.EntriesStayIff | client/src/manager.rs:190-242 | an entry is replaced by a prebuilt runtime for the same id and by nothing else |
| Sessions.RunKeepsIff | client/src/manager.rs:190-242 | a run ends consistent exactly when no insertion replaced a runtime somebody held |
| Sessions.OneRuntimePerSessionIff | client/src/manager.rs:190-242 | under every interleaving callers go on getting one runtime for each id exactly when no insertion replaced a runtime somebody held |
| LedgerWitnesses.LateInsertSplitsSession | client/src/manager.rs:237-242 | two callers of one session with different runtimes |

## Left out

- PromptBuffer.Buffer.EnforceBudget: stated for the prompts on which the loop terminates, since on all others it runs for ever; `PromptBuffer.Buffer.EnforceFor` and `Prompt.StopsExactlyWhenFits` cover every prompt.
- PromptBuffer.Buffer.Finish: stated for the same prompts.
- LocalIndex.MemoryStore.Search: scores are reals, so rounding and `NaN` are not captured, nor the 32-bit overflow of term counts.
- Canonical.CanonicalizeJson: works on values, not in place; sorting by key is the library's sort, and what is captured is the resulting order.
- NullifierRefinement.ReserveIsRun: one call with nobody in between; interleavings are the protocol's business.
- Envelope.SealRequestForGateway: randomness comes in as parameters; that ephemeral keys are fresh is part of `Relay`.
- LocalRedactor.Redactor.FromState: the salt comes in decoded; an undecodable one is `None`.
- Agent.AgentRuntime.SendUserMessage: envelope, gateway call and rolling summary are one optional reply.
- Template.RehydrateUndoesRedactIff: its hypothesis on the passes is sufficient; the exact conditions for one touched placeholder are in `Touched.SwallowedComesBackIff` and `Touched.SplitComesBackIff`, for several nested ones they are not stated.
- Terms.PatternLeftIsInside: one way; a pass that cuts a placeholder need not leave the term outside all of them.
- RemotePrompt.BuildRemoteMessages: stated for the prompts on which the budget loop terminates; `RemotePrompt.NothingLeaksFromPrompt` covers every turn on all others too.
- Matchers.RegexesAreFaithful: digits are ASCII digits, where the source's `\d` takes every Unicode digit.
- Sessions.PathsAreDistinct: compares paths as strings; two strings may name one file.
- Tickets.TicketsAreConserved: a write either happens or leaves the old file; a torn file is not modelled.
- SHA-256, SHAKE-256, ChaCha20-Poly1305, X25519 and HKDF internals, base64, the regular-expression engine and `sled` internals are assumptions, stated above.
- The gateway's own JSON parser, and the number syntax beyond its alphabet; `JsonReader` reads text without blanks between tokens.
- HTTP, the relay process, the provider call, ticket verification and the Actum network: each is an outcome that may go either way.
- Jitter, delays, encryption of session files, the command line and streaming.
