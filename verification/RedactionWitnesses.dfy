/** Texts that redaction loses. */
module RedactionWitnesses {
  import opened Redaction
  import opened RoundTrip
  import opened Template
  import opened Leak
  import opened KeyBlock
  import opened LocalRedactor
  import opened RedactorRuns
  import opened Touched
  import opened Matchers
  import Terms

  const NOTHING: Book := Book(map[], [])

  /** A pass that finds nothing drops out. */
  lemma SkipPass(digest: string -> string, b: Book, t: string, ps: seq<Pass>)
    requires GoodPasses(ps) && ps != [] && IsFinder(ps[0].find) && Spans(ps[0].find, t, 0) == []
    ensures GoodPasses(ps[1..]) && Redacted(digest, b, t, ps) == Redacted(digest, b, t, ps[1..])
  {
    RedactedFirst(digest, b, t, ps);
    assert t[0..] == t;
  }

  function EmailPass(p: Patterns): Pass { Pass(p.email, Email, "EMAIL") }

  function UrlPass(p: Patterns): Pass { Pass(p.url, Url, "URL") }

  function ApiKeyPass(p: Patterns): Pass { Pass(p.apiKey, ApiKey, "API_KEY") }

  function PhonePass(p: Patterns): Pass { Pass(p.phone, Phone, "PHONE") }

  lemma TagsAreText()
    ensures TagText("EMAIL") && TagText("URL") && TagText("API_KEY") && TagText("PHONE")
  {
  }

  /** Strict mode on a text in which only an e-mail address and then a URL are found. */
  lemma StrictIsEmailThenUrl(digest: string -> string, b: Book, t: string, p: Patterns)
    requires GoodPatterns(p) && Spans(p.privateKey, t, 0) == [] && Spans(p.apiKey, t, 0) == []
    requires var u := PassText(digest, t, EmailPass(p)); Spans(p.phone, u, 0) == [] && Spans(p.ethAddress, u, 0) == []
    ensures GoodPasses(Passes(Strict, p, [])) && GoodPasses([EmailPass(p), UrlPass(p)])
    ensures Redacted(digest, b, t, Passes(Strict, p, [])) == Redacted(digest, b, t, [EmailPass(p), UrlPass(p)])
  {
    var ps := Passes(Strict, p, []);
    PassesGood(Strict, p, []);
    TagsAreText();
    var u, c := PassText(digest, t, EmailPass(p)), PassBook(digest, b, t, EmailPass(p));
    SkipPass(digest, b, t, ps);
    SkipPass(digest, b, t, ps[1..]);
    var rest := ps[1..][1..];
    assert rest[0] == EmailPass(p);
    RedactedFirst(digest, b, t, rest);
    SkipPass(digest, c, u, rest[1..]);
    SkipPass(digest, c, u, rest[1..][1..]);
    assert rest[1..][1..][1..] == [UrlPass(p)] == [EmailPass(p), UrlPass(p)][1..];
    RedactedFirst(digest, b, t, [EmailPass(p), UrlPass(p)]);
  }

  /** Basic mode on a text in which only an API key and then a phone number are found. */
  lemma BasicIsKeyThenPhone(digest: string -> string, b: Book, t: string, p: Patterns)
    requires GoodPatterns(p) && Spans(p.privateKey, t, 0) == []
    requires var u := PassText(digest, t, ApiKeyPass(p));
             Spans(p.email, u, 0) == [] && Spans(p.ethAddress, PassText(digest, u, PhonePass(p)), 0) == []
    ensures GoodPasses(Passes(Basic, p, [])) && GoodPasses([ApiKeyPass(p), PhonePass(p)])
    ensures Redacted(digest, b, t, Passes(Basic, p, [])) == Redacted(digest, b, t, [ApiKeyPass(p), PhonePass(p)])
  {
    var ps := Passes(Basic, p, []);
    PassesGood(Basic, p, []);
    TagsAreText();
    var u, c := PassText(digest, t, ApiKeyPass(p)), PassBook(digest, b, t, ApiKeyPass(p));
    var v, d := PassText(digest, u, PhonePass(p)), PassBook(digest, c, u, PhonePass(p));
    SkipPass(digest, b, t, ps);
    assert ps[1..][0] == ApiKeyPass(p);
    RedactedFirst(digest, b, t, ps[1..]);
    SkipPass(digest, c, u, ps[1..][1..]);
    var rest := ps[1..][1..][1..];
    assert rest[0] == PhonePass(p);
    RedactedFirst(digest, c, u, rest);
    SkipPass(digest, d, v, rest[1..]);
    assert rest[1..][1..] == [];
    RedactedFirst(digest, b, t, [ApiKeyPass(p), PhonePass(p)]);
    assert [ApiKeyPass(p), PhonePass(p)][1..] == [PhonePass(p)] && [PhonePass(p)][1..] == [];
    RedactedFirst(digest, c, u, [PhonePass(p)]);
  }

  // ---------------------------------------------------------------- a URL around an e-mail address

  const HEAD: string := "http://"
  const ADDRESS: string := "me@b.cd"

  function AllA(s: string): string { "aaaaaaaaaaaaaaaa" }

  /** No digit, hyphen, x, or white space. */
  predicate Quiet(s: string) {
    forall i :: 0 <= i < |s| ==> !Digit(s[i]) && s[i] != '-' && s[i] != 'x' && s[i] != '+' && !White(s[i])
  }

  lemma QuietConcat(s: string, t: string)
    requires Quiet(s) && Quiet(t)
    ensures Quiet(s + t)
  {
  }

  lemma QuietFindsNothing(t: string)
    requires Quiet(t)
    ensures IsFinder(REGEXES.privateKey) && Spans(REGEXES.privateKey, t, 0) == []
    ensures IsFinder(REGEXES.apiKey) && Spans(REGEXES.apiKey, t, 0) == []
    ensures IsFinder(REGEXES.phone) && Spans(REGEXES.phone, t, 0) == []
    ensures IsFinder(REGEXES.ethAddress) && Spans(REGEXES.ethAddress, t, 0) == []
  {
    RegexesAreFaithful();
    NoBlockIsEmpty();
    MatcherIsFaithful(KeyBlock.Block(IsBegin, IsEnd), Lazy);
    BlocksHaveHyphens();
    NoMarkNoMatch(KeyBlock.Block(IsBegin, IsEnd), '-', t);
    NothingToFind(KeyBlock.Block(IsBegin, IsEnd), REGEXES.privateKey, t);
    ApiKeySafe();
    NoMarkNoMatch(IsApiKey, '-', t);
    NothingToFind(IsApiKey, REGEXES.apiKey, t);
    EthAddressSafe();
    NoMarkNoMatch(IsEthAddress, 'x', t);
    NothingToFind(IsEthAddress, REGEXES.ethAddress, t);
    QuietHasNoPhone(t);
    NothingToFind(IsPhone, REGEXES.phone, t);
  }

  lemma BlocksHaveHyphens()
    ensures forall s :: KeyBlock.Block(IsBegin, IsEnd)(s) ==> '-' in s
  {
    MarkersSeparable();
    forall s | KeyBlock.Block(IsBegin, IsEnd)(s) ensures '-' in s {
      var i, j :| 0 <= i <= j <= |s| && Marked(IsBegin, IsEnd, s, i, j);
      var k :| 0 <= k < i && s[..i][k] == '-';
      assert s[k] == '-';
    }
  }

  /** A phone number starts with a plus or a digit. */
  lemma PhoneStart(s: string)
    requires IsPhone(s)
    ensures |s| >= 9 && (s[0] == '+' || Digit(s[0])) && Digit(s[|s| - 1])
  {
  }

  lemma QuietHasNoPhone(t: string)
    requires Quiet(t)
    ensures NoMatch(IsPhone, t)
  {
    forall i, j | 0 <= i <= j <= |t| ensures !IsPhone(t[i..j]) {
      if i < j { assert t[i..j][j - 1 - i] == t[j - 1]; }
    }
  }

  /** An address is found where it starts, behind a character that cannot belong to it. */
  lemma AddressFound(h: string, e: string)
    requires IsEmail(e) && h != "" && !LocalChar(h[|h| - 1]) && '@' !in h
    ensures IsFinder(REGEXES.email) && Spans(REGEXES.email, h + e, 0) == [(|h|, |h| + |e|)]
  {
    var t := h + e;
    assert t[|h|..|h| + |e|] == e;
    forall k, n | 0 <= k < |h| && k < n <= |t| ensures !IsEmail(t[k..n]) { NotFromHead(h, e, k, n); }
    FindsOneMatch(IsEmail, t, |h|, |h| + |e|);
  }

  lemma NotFromHead(h: string, e: string, k: nat, n: nat)
    requires h != "" && !LocalChar(h[|h| - 1]) && '@' !in h && k < |h| && k < n <= |h + e|
    ensures !IsEmail((h + e)[k..n])
  {
    var s := (h + e)[k..n];
    forall at, dot | 0 < at && at + 1 < dot && dot + 2 < |s| ensures !EmailParts(s, at, dot) {
      if k + at < |h| {
        assert s[at] == h[k + at];
      } else {
        assert s[|h| - 1 - k] == h[|h| - 1];
      }
    }
  }

  lemma AddressIsEmail()
    ensures IsEmail(ADDRESS)
  {
    assert EmailParts(ADDRESS, 2, 4);
  }

  lemma AddressIsPlain()
    ensures Quiet(ADDRESS) && BracketFree(ADDRESS)
  {
  }

  lemma HeadIsPlain()
    ensures Quiet(HEAD) && BracketFree(HEAD) && '@' !in HEAD
  {
  }

  lemma HeadEnds()
    ensures HEAD != "" && !LocalChar(HEAD[|HEAD| - 1])
  {
    assert HEAD[|HEAD| - 1] == '/';
  }

  lemma AllAIsQuiet(tag: string, m: string)
    requires Quiet(tag)
    ensures IsDigest(AllA) && Quiet(Placeholder(AllA, tag, m)) && NoBlank(Placeholder(AllA, tag, m))
  {
    QuietConcat("<", tag);
    QuietConcat("<" + tag, "_");
    QuietConcat("<" + tag + "_", AllA(tag + m));
    QuietConcat("<" + tag + "_" + AllA(tag + m), ">");
  }

  /** A text that is a URL is found as one. */
  lemma WholeIsUrl(t: string)
    requires IsUrl(t)
    ensures IsFinder(REGEXES.url) && Spans(REGEXES.url, t, 0) == [(0, |t|)]
  {
    assert t[0..|t|] == t;
    FindsOneMatch(IsUrl, t, 0, |t|);
  }

  lemma HeadMakesUrl(rest: string)
    requires rest != "" && NoBlank(rest)
    ensures IsUrl(HEAD + rest)
  {
    var t := HEAD + rest;
    assert t[..|HEAD|] == HEAD && t[|HEAD|..] == rest;
    assert IsUrlFrom("http://", t);
  }

  lemma DifferentTags(digest: string -> string, tag: string, m: string, later: string, m': string)
    requires IsDigest(digest) && TagText(tag) && TagText(later) && |tag| != |later|
    ensures Placeholder(digest, tag, m) != Placeholder(digest, later, m')
  {
    PlaceholderLength(digest, tag, m);
    PlaceholderLength(digest, later, m');
  }

  /** In strict mode, an address behind a head that makes a URL of it is lost in every order of the keys,
      whatever was learnt before, if nothing else is found. */
  lemma StrictLosesUrl(digest: string -> string, b: Book, h: string, e: string, p: Patterns)
    requires IsDigest(digest) && GoodPatterns(p) && GoodBook(b) && BracketFree(h) && BracketFree(e)
    requires Spans(p.privateKey, h + e, 0) == [] && Spans(p.apiKey, h + e, 0) == []
    requires Spans(p.email, h + e, 0) == [(|h|, |h| + |e|)]
    requires var u := h + Placeholder(digest, "EMAIL", e);
             && Spans(p.phone, u, 0) == [] && Spans(p.ethAddress, u, 0) == [] && Spans(p.url, u, 0) == [(0, |u|)]
             && NoClash(b, Placeholder(digest, "EMAIL", e), e, Placeholder(digest, "URL", u), u)
    ensures GoodPasses(Passes(Strict, p, []))
    ensures var (u, book) := Redacted(digest, b, h + e, Passes(Strict, p, [])); IsLost(u, book.rev, h + e)
  {
    var n, ph := "", Placeholder(digest, "EMAIL", e);
    TagsAreText();
    Ends(n, h, e);
    Ends(n, h, ph);
    EmailLeaves(digest, h, e, p);
    StrictIsEmailThenUrl(digest, b, h + e, p);
    SwallowedComesBackIff(digest, b, n, h, e, n, n, EmailPass(p), UrlPass(p));
  }

  lemma EmailLeaves(digest: string -> string, h: string, e: string, p: Patterns)
    requires GoodPatterns(p) && Spans(p.email, h + e, 0) == [(|h|, |h| + |e|)]
    ensures PassText(digest, h + e, EmailPass(p)) == h + Placeholder(digest, "EMAIL", e)
  {
    var n := "";
    Ends(n, h, e);
    Ends(n, h, Placeholder(digest, "EMAIL", e));
    OncePass(digest, NOTHING, h, e, n, EmailPass(p));
  }

  lemma Ends(n: string, h: string, e: string)
    requires n == ""
    ensures n + h == h && n + n == n && h + e + n == h + e && n + (h + e + n) + n == h + e && e + n == e
  {
  }

  /** The same with the redactor's own expressions, for any head and address that give them nothing else
      to find. */
  lemma QuietUrlIsLost(digest: string -> string, h: string, e: string, p: string)
    requires IsDigest(digest) && IsEmail(e) && Quiet(e) && BracketFree(e) && Quiet(h) && BracketFree(h)
    requires h != "" && !LocalChar(h[|h| - 1]) && '@' !in h
    requires p == Placeholder(digest, "EMAIL", e) && Quiet(p) && IsUrl(h + p)
    ensures GoodPatterns(REGEXES) && GoodPasses(Passes(Strict, REGEXES, []))
    ensures var (u, book) := Redacted(digest, NOTHING, h + e, Passes(Strict, REGEXES, [])); IsLost(u, book.rev, h + e)
  {
    RegexesAreFaithful();
    QuietBehind(h, e);
    QuietBehind(h, p);
    AddressFound(h, e);
    WholeIsUrl(h + p);
    UrlDiffers(digest, e, h + p);
    StrictLosesUrl(digest, NOTHING, h, e, REGEXES);
  }

  lemma QuietBehind(h: string, t: string)
    requires Quiet(h) && Quiet(t)
    ensures GoodPatterns(REGEXES)
    ensures Spans(REGEXES.privateKey, h + t, 0) == [] && Spans(REGEXES.apiKey, h + t, 0) == []
    ensures Spans(REGEXES.phone, h + t, 0) == [] && Spans(REGEXES.ethAddress, h + t, 0) == []
  {
    RegexesAreFaithful();
    QuietConcat(h, t);
    QuietFindsNothing(h + t);
  }

  lemma UrlDiffers(digest: string -> string, e: string, url: string)
    requires IsDigest(digest)
    ensures NoClash(NOTHING, Placeholder(digest, "EMAIL", e), e, Placeholder(digest, "URL", url), url)
  {
    TagsAreText();
    DifferentTags(digest, "EMAIL", e, "URL", url);
  }

  /** Redacting `http://me@b.cd` in strict mode loses it: rehydration gives another text, in every order
      of the keys. */
  lemma UrlAroundEmailIsLost()
    ensures IsDigest(AllA) && FaithfulPatterns(REGEXES) && GoodPasses(Passes(Strict, REGEXES, []))
    ensures var (u, book) := Redacted(AllA, NOTHING, HEAD + ADDRESS, Passes(Strict, REGEXES, []));
            IsLost(u, book.rev, HEAD + ADDRESS)
  {
    RegexesAreFaithful();
    AddressIsEmail();
    AddressIsPlain();
    HeadIsPlain();
    HeadEnds();
    AllAIsQuiet("EMAIL", ADDRESS);
    HeadMakesUrl(Placeholder(AllA, "EMAIL", ADDRESS));
    QuietUrlIsLost(AllA, HEAD, ADDRESS, Placeholder(AllA, "EMAIL", ADDRESS));
  }

  // ---------------------------------------------------------------- a phone number inside a placeholder

  const KEY: string := "sk-bbbbbbbbbbbbbbbb"

  function AllDigits(s: string): string { "1234567890123456" }

  /** In basic mode, an API key whose placeholder holds a run of digits that the phone pattern finds is
      lost in every order of the keys, whatever was learnt before, if nothing else is found. */
  lemma BasicLosesKey(digest: string -> string, b: Book, key: string, a: string, m: string, c: string, p: Patterns,
                      whole: string, q: string, v: string)
    requires IsDigest(digest) && GoodPatterns(p) && GoodBook(b)
    requires BracketFree(key) && BracketFree(a) && BracketFree(m) && BracketFree(c)
    requires whole == Placeholder(digest, "API_KEY", key) == "<" + a + m + c + ">"
    requires q == Placeholder(digest, "PHONE", m) && v == "<" + a + q + c + ">"
    requires Spans(p.privateKey, key, 0) == [] && Spans(p.apiKey, key, 0) == [(0, |key|)]
    requires Spans(p.email, whole, 0) == [] && Spans(p.phone, whole, 0) == [(1 + |a|, 1 + |a| + |m|)]
    requires Spans(p.ethAddress, v, 0) == [] && NoClash(b, whole, key, q, m)
    ensures GoodPasses(Passes(Basic, p, []))
    ensures var (u, book) := Redacted(digest, b, key, Passes(Basic, p, [])); IsLost(u, book.rev, key)
  {
    KeyLeaves(digest, key, whole, p);
    PhoneLeaves(digest, a, m, c, whole, q, v, p);
    BasicIsKeyThenPhone(digest, b, key, p);
    KeyThenPhoneIsLost(digest, b, key, a, m, c, p);
  }

  lemma KeyAndPhoneOnce(n: string, key: string, a: string, m: string, c: string, p: Patterns)
    requires n == "" && GoodPatterns(p) && Spans(p.apiKey, key, 0) == [(0, |key|)]
    requires Spans(p.phone, "<" + a + m + c + ">", 0) == [(1 + |a|, 1 + |a| + |m|)]
    ensures GoodPass(ApiKeyPass(p)) && GoodPass(PhonePass(p)) && FindsOnce(ApiKeyPass(p), n, key, n)
    ensures FindsOnce(PhonePass(p), n + ("<" + a), m, (c + ">") + n) && n + key + n == key
  {
    TagsAreText();
    Around(n, key);
    OnceAs(ApiKeyPass(p), n, key, n, key);
    Inside(n, a, m, c);
    OnceAs(PhonePass(p), n + ("<" + a), m, (c + ">") + n, "<" + a + m + c + ">");
  }

  lemma OnceAs(p: Pass, x: string, m: string, y: string, t: string)
    requires IsFinder(p.find) && x + m + y == t && Spans(p.find, t, 0) == [(|x|, |x| + |m|)]
    ensures FindsOnce(p, x, m, y)
  {
  }

  lemma KeyThenPhoneIsLost(digest: string -> string, b: Book, key: string, a: string, m: string, c: string, p: Patterns)
    requires IsDigest(digest) && GoodPatterns(p) && GoodBook(b)
    requires BracketFree(key) && BracketFree(a) && BracketFree(m) && BracketFree(c)
    requires Placeholder(digest, "API_KEY", key) == "<" + a + m + c + ">"
    requires Spans(p.apiKey, key, 0) == [(0, |key|)]
             && Spans(p.phone, "<" + a + m + c + ">", 0) == [(1 + |a|, 1 + |a| + |m|)]
    requires NoClash(b, Placeholder(digest, "API_KEY", key), key, Placeholder(digest, "PHONE", m), m)
    ensures GoodPasses([ApiKeyPass(p), PhonePass(p)])
    ensures var (u, book) := Redacted(digest, b, key, [ApiKeyPass(p), PhonePass(p)]); IsLost(u, book.rev, key)
  {
    var n := "";
    KeyAndPhoneOnce(n, key, a, m, c, p);
    SplitComesBackIff(digest, b, n, key, n, a, m, c, ApiKeyPass(p), PhonePass(p));
  }

  lemma KeyLeaves(digest: string -> string, key: string, whole: string, p: Patterns)
    requires GoodPatterns(p) && Spans(p.apiKey, key, 0) == [(0, |key|)] && whole == Placeholder(digest, "API_KEY", key)
    ensures PassText(digest, key, ApiKeyPass(p)) == whole
  {
    var n := "";
    Around(n, key);
    Around(n, whole);
    OncePass(digest, NOTHING, n, key, n, ApiKeyPass(p));
  }

  lemma PhoneLeaves(digest: string -> string, a: string, m: string, c: string, whole: string, q: string, v: string,
                    p: Patterns)
    requires GoodPatterns(p) && whole == "<" + a + m + c + ">" && v == "<" + a + q + c + ">"
    requires q == Placeholder(digest, "PHONE", m) && Spans(p.phone, whole, 0) == [(1 + |a|, 1 + |a| + |m|)]
    ensures PassText(digest, whole, PhonePass(p)) == v
  {
    var n := "";
    Inside(n, a, m, c);
    Inside(n, a, q, c);
    OncePass(digest, NOTHING, n + ("<" + a), m, (c + ">") + n, PhonePass(p));
  }

  lemma Around(n: string, s: string)
    requires n == ""
    ensures n + s + n == s && n + s == s
  {
  }

  lemma Inside(n: string, a: string, m: string, c: string)
    requires n == ""
    ensures n + ("<" + a) + m + ((c + ">") + n) == "<" + a + m + c + ">" && |n + ("<" + a)| == 1 + |a|
  {
  }

  /** No start of a phone number. */
  predicate Mute(s: string) { forall i :: 0 <= i < |s| ==> !Digit(s[i]) && s[i] != '+' }

  predicate Digits(s: string) { forall i :: 0 <= i < |s| ==> Digit(s[i]) }

  /** A run of digits is a phone number. */
  lemma RunIsPhone(x: string, m: string, y: string, t: string)
    requires Mute(x) && Mute(y) && Digits(m) && |m| >= 9 && t == x + m + y
    ensures IsFinder(REGEXES.phone) && Spans(REGEXES.phone, t, 0) == [(|x|, |x| + |m|)]
  {
    MiddleIs(x, m, y);
    DigitsArePhone(m);
    NonePhoneElsewhere(x, m, y, t);
    OnePhone(t, |x|, |x| + |m|);
  }

  lemma OnePhone(t: string, i: nat, j: nat)
    requires i < j <= |t| && IsPhone(t[i..j])
    requires forall k, e :: 0 <= k < e <= |t| && (k < i || e > j) ==> !IsPhone(t[k..e])
    ensures IsFinder(REGEXES.phone) && Spans(REGEXES.phone, t, 0) == [(i, j)]
  {
    FindsOneMatch(IsPhone, t, i, j);
  }

  lemma NonePhoneElsewhere(x: string, m: string, y: string, t: string)
    requires Mute(x) && Mute(y) && t == x + m + y
    ensures forall k, e :: 0 <= k < e <= |t| && (k < |x| || e > |x| + |m|) ==> !IsPhone(t[k..e])
  {
    forall k, e | 0 <= k < e <= |t| && (k < |x| || e > |x| + |m|) ensures !IsPhone(t[k..e]) {
      NoPhoneElsewhere(x, m, y, k, e);
    }
  }

  lemma MiddleIs(x: string, m: string, y: string)
    ensures (x + m + y)[|x|..|x| + |m|] == m
  {
  }

  lemma DigitsArePhone(m: string)
    requires Digits(m) && |m| >= 9
    ensures IsPhone(m)
  {
    assert Digit(m[0]) && Digit(m[|m| - 1]);
    forall i | 0 < i < |m| - 1 ensures PhoneChar(m[i]) { assert Digit(m[i]); }
  }

  lemma NoPhoneElsewhere(x: string, m: string, y: string, k: nat, e: nat)
    requires Mute(x) && Mute(y) && k < e <= |x + m + y| && (k < |x| || e > |x| + |m|)
    ensures !IsPhone((x + m + y)[k..e])
  {
    var t := x + m + y;
    var s := t[k..e];
    assert s[0] == t[k] && s[|s| - 1] == t[e - 1];
    if k < |x| { assert t[k] == x[k]; } else { assert t[e - 1] == y[e - 1 - |x| - |m|]; }
    if IsPhone(s) { PhoneStart(s); }
  }

  lemma KeyIsApiKey()
    ensures IsApiKey(KEY) && |KEY| == 19 && BracketFree(KEY)
  {
    assert KEY[..3] == "sk-";
  }

  lemma KeyFound(key: string)
    requires IsApiKey(key) && |key| == 19
    ensures IsFinder(REGEXES.apiKey) && Spans(REGEXES.apiKey, key, 0) == [(0, |key|)]
    ensures IsFinder(REGEXES.privateKey) && Spans(REGEXES.privateKey, key, 0) == []
  {
    assert key[0..|key|] == key;
    FindsOneMatch(IsApiKey, key, 0, |key|);
    RegexesAreFaithful();
    NoBlockIsEmpty();
    MatcherIsFaithful(KeyBlock.Block(IsBegin, IsEnd), Lazy);
    forall i, j | 0 <= i <= j <= |key| ensures !KeyBlock.Block(IsBegin, IsEnd)(key[i..j]) { ShortIsNoBlock(key[i..j]); }
    NothingToFind(KeyBlock.Block(IsBegin, IsEnd), REGEXES.privateKey, key);
  }

  lemma ShortIsNoBlock(s: string)
    requires |s| <= 19
    ensures !KeyBlock.Block(IsBegin, IsEnd)(s)
  {
    assert |"-----BEGIN "| == 11 && |PRIVATE_KEY| == 16;
    forall i, j | 0 <= i <= j <= |s| ensures !Marked(IsBegin, IsEnd, s, i, j) {}
  }

  /** Neither an address nor an Ethereum address. */
  predicate Unmarked(s: string) { '@' !in s && 'x' !in s }

  lemma UnmarkedFindsNothing(t: string)
    requires Unmarked(t)
    ensures IsFinder(REGEXES.email) && Spans(REGEXES.email, t, 0) == []
    ensures IsFinder(REGEXES.ethAddress) && Spans(REGEXES.ethAddress, t, 0) == []
  {
    RegexesAreFaithful();
    EmailSafe();
    NoMarkNoMatch(IsEmail, '@', t);
    NothingToFind(IsEmail, REGEXES.email, t);
    EthAddressSafe();
    NoMarkNoMatch(IsEthAddress, 'x', t);
    NothingToFind(IsEthAddress, REGEXES.ethAddress, t);
  }

  lemma PlaceholderIsUnmarked(p: string)
    requires IsPlaceholder(p)
    ensures Unmarked(p)
  {
  }

  const STEM: string := "API_KEY_"

  lemma StemIsMute()
    ensures Mute("<" + STEM) && BracketFree(STEM) && Unmarked("<" + STEM)
  {
  }

  lemma RunIsDigits(s: string)
    ensures Digits(AllDigits(s)) && |AllDigits(s)| == 16 && BracketFree(AllDigits(s)) && IsHex16(AllDigits(s))
  {
  }

  lemma KeyPlaceholder(key: string)
    ensures IsDigest(AllDigits)
    ensures Placeholder(AllDigits, "API_KEY", key) == "<" + STEM + AllDigits(key) + "" + ">"
  {
    forall s: string ensures IsHex16(AllDigits(s)) { RunIsDigits(s); }
    assert "<" + "API_KEY" + "_" == "<" + STEM;
  }

  lemma UnmarkedConcat(s: string, t: string)
    requires Unmarked(s) && Unmarked(t)
    ensures Unmarked(s + t)
  {
  }

  /** Redacting an API key in basic mode loses it when the hash is all digits: the phone pattern finds a
      number inside the placeholder. */
  lemma PhoneInKeyIsLost()
    ensures IsDigest(AllDigits) && FaithfulPatterns(REGEXES) && GoodPasses(Passes(Basic, REGEXES, []))
    ensures var (u, book) := Redacted(AllDigits, NOTHING, KEY, Passes(Basic, REGEXES, [])); IsLost(u, book.rev, KEY)
  {
    var m, c := AllDigits(KEY), "";
    var p, q := Placeholder(AllDigits, "API_KEY", KEY), Placeholder(AllDigits, "PHONE", m);
    RegexesAreFaithful();
    TagsAreText();
    KeyIsApiKey();
    KeyFound(KEY);
    KeyPlaceholder(KEY);
    RunIsDigits(KEY);
    StemIsMute();
    NothingBesides(AllDigits, KEY, STEM, m, p, q);
    RunFound(STEM, m, p);
    DifferentTags(AllDigits, "API_KEY", KEY, "PHONE", m);
    BasicLosesKey(AllDigits, NOTHING, KEY, STEM, m, c, REGEXES, p, q, "<" + STEM + q + c + ">");
  }

  lemma NothingBesides(digest: string -> string, key: string, a: string, m: string, p: string, q: string)
    requires IsDigest(digest) && p == Placeholder(digest, "API_KEY", key) && q == Placeholder(digest, "PHONE", m)
             && Unmarked("<" + a)
    ensures GoodPatterns(REGEXES) && Spans(REGEXES.email, p, 0) == []
    ensures Spans(REGEXES.ethAddress, "<" + a + q + "" + ">", 0) == []
  {
    RegexesAreFaithful();
    TagsAreText();
    PlaceholderShape(digest, "API_KEY", key);
    PlaceholderIsUnmarked(p);
    PlaceholderShape(digest, "PHONE", m);
    PlaceholderIsUnmarked(q);
    UnmarkedConcat("<" + a, q);
    UnmarkedConcat("<" + a + q, "");
    UnmarkedConcat("<" + a + q + "", ">");
    UnmarkedFindsNothing(p);
    UnmarkedFindsNothing("<" + a + q + "" + ">");
  }

  lemma RunFound(a: string, m: string, p: string)
    requires Mute("<" + a) && Digits(m) && |m| >= 9 && p == "<" + a + m + "" + ">"
    ensures IsFinder(REGEXES.phone) && Spans(REGEXES.phone, p, 0) == [(1 + |a|, 1 + |a| + |m|)]
  {
    assert p == ("<" + a) + m + ">";
    RunIsPhone("<" + a, m, ">", p);
  }

  // ---------------------------------------------------------------- a text that holds a known placeholder

  /** A text that is a placeholder of the table: no pass finds anything, and rehydration puts the original in
      its place, in every order of the keys. */
  lemma KnownPlaceholderIsLost()
    ensures FaithfulPatterns(REGEXES) && GoodPasses(Passes(Basic, REGEXES, []))
    ensures var p := Placeholder(AllA, "EMAIL", ADDRESS);
            var (u, book) := Redacted(AllA, Book(map[p := ADDRESS], []), p, Passes(Basic, REGEXES, []));
            u == p && IsLost(u, book.rev, p)
  {
    var p, ps := Placeholder(AllA, "EMAIL", ADDRESS), Passes(Basic, REGEXES, []);
    var b := Book(map[p := ADDRESS], []);
    RegexesAreFaithful();
    PassesGood(Basic, REGEXES, []);
    AddressIsPlain();
    AllAIsQuiet("EMAIL", ADDRESS);
    TagsAreText();
    PhBracketed(AllA, "EMAIL", ADDRESS);
    PlaceholderShape(AllA, "EMAIL", ADDRESS);
    PlaceholderIsUnmarked(p);
    NothingInBasic(p);
    NothingRedacted(AllA, b, p, ps);
    assert p[0..|p|] == p && At(p, 0, p) && Occurs(p, p);
    forall keys | KeyOrder(keys, b.rev) ensures Sequential(p, keys, b.rev) != p {
      UntouchedComesBackIff(AllA, b, p, ps, keys);
    }
  }

  lemma NothingInBasic(t: string)
    requires Quiet(t) && Unmarked(t)
    ensures GoodPasses(Passes(Basic, REGEXES, [])) && FindsNothing(Passes(Basic, REGEXES, []), t)
  {
    PassesGood(Basic, REGEXES, []);
    QuietFindsNothing(t);
    UnmarkedFindsNothing(t);
    var ps := Passes(Basic, REGEXES, []);
    forall i | 0 <= i < |ps| ensures GoodPass(ps[i]) && Spans(ps[i].find, t, 0) == [] {
      assert GoodPass(ps[i]);
    }
  }

  // ---------------------------------------------------------------- a term left outside placeholders

  lemma {:induction false} ReplaceThroughOthers(a: string, r: string, c: char, v: string)
    requires c !in a
    ensures Replace(a + r, [c], v) == a + Replace(r, [c], v)
  {
    if a == [] {
      assert a + r == r;
    } else {
      ReplaceThroughOthers(a[1..], r, c, v);
      TailOfSum(a, r);
      OtherFirst([c], a + r);
      ReplaceStep(a + r, [c], v);
      Uncons(a, Replace(r, [c], v));
    }
  }

  lemma ReplaceOnce(a: string, c: char, r: string, v: string)
    requires c !in a && c !in r
    ensures Replace(a + ([c] + r), [c], v) == a + (v + r)
  {
    ReplaceThroughOthers(a, [c] + r, c, v);
    assert ([c] + r)[1..] == r && [c] <= [c] + r;
    ReplacePrefix([c] + r, [c], v);
    ReplaceThroughOthers(r, "", c, v);
    assert r + "" == r;
  }

  /** Two terms, the first of them the whole text. */
  lemma TwoTerms(digest: string -> string, b: Book, w: string, v: string)
    requires w != "" && v != ""
    ensures GoodPasses([TermPass(w), TermPass(v)])
    ensures Redacted(digest, b, w, [TermPass(w), TermPass(v)]).0
         == Replace(Placeholder(digest, "CUSTOM", w), v, Placeholder(digest, "CUSTOM", v))
  {
    var ph, ps := Placeholder(digest, "CUSTOM", w), [TermPass(w), TermPass(v)];
    Terms.TermPassIsReplace(digest, w, w);
    Terms.TermPassIsReplace(digest, ph, v);
    assert GoodPasses(ps) && ps[1..] == [TermPass(v)];
    ReplacePrefix(w, w, ph);
    assert w[|w|..] == "" && ph + "" == ph;
    RedactedFirst(digest, b, w, ps);
    RedactedFirst(digest, PassBook(digest, b, w, TermPass(w)), ph, ps[1..]);
  }

  lemma HexHasNoUnderscore(h: string)
    requires IsHex16(h)
    ensures '_' !in h + ">"
  {
  }

  /** Replacing the only `_` of a placeholder splits it in front of the hash. */
  lemma SplitAtUnderscore(digest: string -> string, tag: string, m: string, v: string)
    requires IsDigest(digest) && '_' !in tag
    ensures Replace(Placeholder(digest, tag, m), "_", v) == "<" + tag + (v + (digest(tag + m) + ">"))
  {
    var rest := digest(tag + m) + ">";
    HexHasNoUnderscore(digest(tag + m));
    assert Placeholder(digest, tag, m) == "<" + tag + (['_'] + rest);
    ReplaceOnce("<" + tag, '_', rest, v);
  }

  /** A pass after its own can cut the placeholder a term was left in: then the term stands outside
      all placeholders. */
  lemma CutTermIsOutside(digest: string -> string, b: Book)
    requires IsDigest(digest)
    ensures GoodPasses([TermPass("CUSTOM"), TermPass("_")])
    ensures !Terms.AllInside(Is("CUSTOM"), Redacted(digest, b, "CUSTOM", [TermPass("CUSTOM"), TermPass("_")]).0)
  {
    TwoTerms(digest, b, "CUSTOM", "_");
    SplitAtUnderscore(digest, "CUSTOM", "CUSTOM", Placeholder(digest, "CUSTOM", "_"));
    OpensWithBracket(digest, "CUSTOM", "_", digest("CUSTOM" + "CUSTOM") + ">");
    BetweenOpenings("CUSTOM", Placeholder(digest, "CUSTOM", "_") + (digest("CUSTOM" + "CUSTOM") + ">"));
  }

  lemma OpensWithBracket(digest: string -> string, tag: string, m: string, r: string)
    ensures Placeholder(digest, tag, m) + r != "" && (Placeholder(digest, tag, m) + r)[0] == '<'
  {
    assert Placeholder(digest, tag, m)[0] == '<';
  }

  /** Between two opening brackets nothing is inside a placeholder. */
  lemma BetweenOpenings(w: string, r: string)
    requires w != "" && BracketFree(w) && r != "" && r[0] == '<'
    ensures !Terms.AllInside(Is(w), "<" + w + r)
  {
    var t, n := "<" + w + r, |w| + 1;
    assert t[1..n] == w && t[0] == '<' && t[n] == '<';
    forall a, b | 0 <= a <= 1 && n <= b <= |t| && a <= b ensures !IsPlaceholder(t[a..b]) {
      if a == 1 { assert t[1..b][0] == w[0]; }
      else if b == n { assert t[0..b][b - 1] == w[|w| - 1]; }
      else { assert t[0..b][n] == '<'; }
    }
    assert Is(w)(t[1..n]);
  }
}
