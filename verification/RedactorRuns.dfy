/** What holds over every run of a redactor, and for every text it redacts. */
module RedactorRuns {
  import opened Redaction
  import opened RoundTrip
  import opened Template
  import opened Leak
  import opened KeyBlock
  import opened Secrets
  import opened LocalRedactor

  // ---------------------------------------------------------------- runs

  datatype Call = Redact(text: string, mode: RedactMode, extraTerms: seq<string>) | AddTerm(term: string)

  datatype Contents = Contents(book: Book, terms: seq<string>)

  ghost function Step(digest: string -> string, p: Patterns, c: Contents, call: Call): Contents
    requires GoodPatterns(p)
  {
    match call
    case Redact(text, mode, extra) =>
      PassesGood(mode, p, c.terms + extra);
      c.(book := Redacted(digest, c.book, text, Passes(mode, p, c.terms + extra)).1)
    case AddTerm(term) => c.(terms := if Blank(term) || term in c.terms then c.terms else c.terms + [term])
  }

  ghost function Run(digest: string -> string, p: Patterns, c: Contents, calls: seq<Call>): Contents
    requires GoodPatterns(p)
    decreases |calls|
  {
    if calls == [] then c else Run(digest, p, Step(digest, p, c, calls[0]), calls[1..])
  }

  /** Over every run from a loaded state with distinct placeholders: mappings are only added, the
      reverse map is the one the entries load into, and placeholders stay distinct. So loading what
      was saved gives the same redactor back. */
  lemma {:induction false} RunKeepsTable(digest: string -> string, p: Patterns, c: Contents, calls: seq<Call>)
    requires GoodPatterns(p) && Loaded(c.book) && DistinctPlaceholders(c.book.entries)
    ensures var d := Run(digest, p, c, calls);
            && Extends(c.book, d.book) && DistinctPlaceholders(d.book.entries)
            && d.book == Book(MapOf(d.book.entries), d.book.entries)
    decreases |calls|
  {
    if calls != [] {
      var next := Step(digest, p, c, calls[0]);
      match calls[0] {
        case Redact(text, mode, extra) =>
          PassesGood(mode, p, c.terms + extra);
          RedactedKeeps(digest, c.book, text, Passes(mode, p, c.terms + extra));
        case AddTerm(_) =>
      }
      RunKeepsTable(digest, p, next, calls[1..]);
      ExtendsTrans(c.book, next.book, Run(digest, p, c, calls).book);
    }
  }

  /** With distinct placeholders every entry is what its placeholder stands for. */
  lemma {:induction false} EveryEntryCounts(entries: seq<RedactionEntry>, i: nat)
    requires DistinctPlaceholders(entries) && i < |entries|
    ensures entries[i].placeholder in MapOf(entries) && MapOf(entries)[entries[i].placeholder] == entries[i].original
  {
    if i < |entries| - 1 { EveryEntryCounts(entries[..|entries| - 1], i); }
  }

  lemma {:induction false} RunExtends(digest: string -> string, p: Patterns, c: Contents, calls: seq<Call>)
    requires GoodPatterns(p)
    ensures Extends(c.book, Run(digest, p, c, calls).book)
    decreases |calls|
  {
    if calls != [] {
      var next := Step(digest, p, c, calls[0]);
      match calls[0] {
        case Redact(text, mode, extra) =>
          PassesGood(mode, p, c.terms + extra);
          RedactedKeeps(digest, c.book, text, Passes(mode, p, c.terms + extra));
        case AddTerm(_) =>
      }
      RunExtends(digest, p, next, calls[1..]);
      ExtendsTrans(c.book, next.book, Run(digest, p, c, calls).book);
    }
  }

  /** A text redacted early, in any run: rehydrated after any number of later calls, it comes back exactly
      when it holds no key of the table as it then is. */
  lemma OldTextsStillRehydrate(digest: string -> string, p: Patterns, c: Contents, text: string, mode: RedactMode,
                               extra: seq<string>, later: seq<Call>, keys: seq<string>)
    requires IsDigest(digest) && GoodPatterns(p)
    requires var rev := Run(digest, p, c, [Redact(text, mode, extra)] + later).book.rev;
             && GoodMap(rev) && KeyOrder(keys, rev)
             && (PassesGood(mode, p, c.terms + extra);
                 SafeFor(digest, text, Passes(mode, p, c.terms + extra), rev))
    ensures GoodPasses(Passes(mode, p, c.terms + extra))
    ensures var rev := Run(digest, p, c, [Redact(text, mode, extra)] + later).book.rev;
            var out := Redacted(digest, c.book, text, Passes(mode, p, c.terms + extra)).0;
            Sequential(out, keys, rev) == text <==> forall k :: k in rev ==> !Occurs(k, text)
  {
    var ps := Passes(mode, p, c.terms + extra);
    var calls := [Redact(text, mode, extra)] + later;
    var next := Step(digest, p, c, calls[0]);
    assert calls[1..] == later;
    PassesGood(mode, p, c.terms + extra);
    RunExtends(digest, p, next, later);
    RehydrateUndoesRedactIff(digest, c.book, text, ps, Run(digest, p, c, calls).book.rev, keys);
  }

  // ---------------------------------------------------------------- kinds and tags

  /** The tag in the placeholders of a kind. */
  function TagOf(kind: Kind): string {
    match kind
    case PrivateKey => "PRIVATE_KEY"
    case ApiKey => "API_KEY"
    case Email => "EMAIL"
    case Phone => "PHONE"
    case EthAddress => "ETH_ADDR"
    case Url => "URL"
    case Custom => "CUSTOM"
  }

  /** What is looked for, in this order: private keys and API keys first, URLs only in strict mode, then the
      terms; and each kind has its own tag. */
  lemma KindsInOrder(mode: RedactMode, p: Patterns, terms: seq<string>)
    requires mode != RedactMode.None
    ensures var (ps, n) := (Passes(mode, p, terms), if mode == Strict then 6 else 5);
            && |ps| >= n && ps[0].kind == PrivateKey && ps[1].kind == ApiKey && ps[2].kind == Email
            && ps[3].kind == Phone && ps[4].kind == EthAddress && (mode == Strict ==> ps[5].kind == Url)
            && (forall i :: n <= i < |ps| ==> ps[i].kind == Custom)
            && forall i :: 0 <= i < |ps| ==> ps[i].tag == TagOf(ps[i].kind)
  {
    TermKinds(terms);
    var rx, ts := RegexPasses(mode, p), TermPasses(terms);
    assert forall i :: |rx| <= i < |rx + ts| ==> (rx + ts)[i] == ts[i - |rx|];
  }

  lemma {:induction false} TermKinds(terms: seq<string>)
    ensures forall i :: 0 <= i < |TermPasses(terms)| ==>
              TermPasses(terms)[i].kind == Custom && TermPasses(terms)[i].tag == "CUSTOM"
  {
    if terms != [] { TermKinds(terms[1..]); }
  }

  // ---------------------------------------------------------------- nothing leaks

  /** The regular expressions find, leftmost first, what they are written to find. */
  ghost predicate FaithfulPatterns(p: Patterns) {
    && GoodPatterns(p)
    && FindsBlocks(IsBegin, IsEnd, p.privateKey) && FindsLeftmost(IsApiKey, p.apiKey)
    && FindsLeftmost(IsEmail, p.email) && FindsLeftmost(IsEthAddress, p.ethAddress)
  }

  /** Unless redaction is off, the result holds no private-key block, no API key, no e-mail address
      and no Ethereum address, character by character, whatever phone numbers, URLs and custom terms
      are replaced besides. */
  lemma NothingLeaks(digest: string -> string, b: Book, t: string, mode: RedactMode, p: Patterns, terms: seq<string>)
    requires IsDigest(digest) && FaithfulPatterns(p) && mode != RedactMode.None
    ensures GoodPasses(Passes(mode, p, terms))
    ensures SecretFree(Redacted(digest, b, t, Passes(mode, p, terms)).0)
  {
    var ps := Passes(mode, p, terms);
    PassesGood(mode, p, terms);
    assert ps[0].find == p.privateKey && ps[1].find == p.apiKey && ps[2].find == p.email && ps[4].find == p.ethAddress;
    ApiKeySafe();
    EmailSafe();
    EthAddressSafe();
    KeyBlocksAreGone(digest, b, t, ps);
    PatternIsGone(IsApiKey, '-', digest, b, t, ps, 1);
    PatternIsGone(IsEmail, '@', digest, b, t, ps, 2);
    PatternIsGone(IsEthAddress, 'x', digest, b, t, ps, 4);
    SecretFreeIff(Redacted(digest, b, t, ps).0);
  }
}
