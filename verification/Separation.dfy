/** Which passes can touch a placeholder at all. E-mail addresses, API keys, Ethereum addresses and private
    keys cannot: each contains a character no placeholder contains. What is left to look at are phone
    numbers, URLs and custom terms. */
module Separation {
  import opened Redaction
  import opened RoundTrip
  import opened Template
  import opened Leak
  import opened KeyBlock
  import opened LocalRedactor

  /** What the regular expressions report matches them. */
  ghost predicate FindsOnly(p: Pattern, find: Finder) {
    IsFinder(find) && forall t: string, start: nat :: start <= |t| ==> FoundMatches(p, find, t, start)
  }

  ghost predicate FoundMatches(p: Pattern, find: Finder, t: string, start: nat)
    requires IsFinder(find) && start <= |t|
  {
    assert FindsAt(find, t, start);
    find(t, start).Some? ==> p(t[find(t, start).value.0..find(t, start).value.1])
  }

  predicate PlaceholderKeys(rev: map<string, string>) { forall k :: k in rev ==> IsPlaceholder(k) }

  /** A character that no placeholder has. */
  predicate Mark(c: char) { !TagChar(c) && !HexChar(c) && c != '<' && c != '>' }

  predicate HasMark(m: string) { exists k :: 0 <= k < |m| && Mark(m[k]) }

  ghost predicate MarkedAt(find: Finder, t: string, start: nat)
    requires IsFinder(find) && start <= |t|
  {
    assert FindsAt(find, t, start);
    find(t, start).Some? ==> HasMark(t[find(t, start).value.0..find(t, start).value.1])
  }

  ghost predicate FindsMarked(find: Finder) {
    IsFinder(find) && forall t: string, start: nat :: start <= |t| ==> MarkedAt(find, t, start)
  }

  /** Such a match lies inside no placeholder. */
  lemma MarkIsClear(u: string, i: nat, j: nat, rev: map<string, string>)
    requires PlaceholderKeys(rev) && i <= j <= |u| && HasMark(u[i..j])
    ensures Clear(u, i, j, rev)
  {
    var k :| 0 <= k < j - i && Mark(u[i..j][k]);
    forall a, b | 0 <= a <= i && j <= b <= |u| ensures u[a..b] !in rev {
      var s := u[a..b];
      assert s[i + k - a] == u[i + k] == u[i..j][k];
      assert !IsPlaceholder(s);
    }
  }

  /** No match has a bracket. */
  predicate AllPlain(t: string, start: nat, spans: seq<(nat, nat)>)
    requires Placed(t, start, spans)
    decreases |spans|
  {
    spans == [] || (BracketFree(t[spans[0].0..spans[0].1]) && AllPlain(t, spans[0].1, spans[1..]))
  }

  lemma {:induction false} PlainTextIsPlain(t: string, start: nat, spans: seq<(nat, nat)>)
    requires BracketFree(t) && Placed(t, start, spans)
    ensures AllPlain(t, start, spans)
    decreases |spans|
  {
    if spans != [] { PlainTextIsPlain(t, spans[0].1, spans[1..]); }
  }

  lemma {:induction false} MarkedIsApart(find: Finder, t: string, start: nat, rev: map<string, string>)
    requires FindsMarked(find) && PlaceholderKeys(rev) && start <= |t| && Placed(t, start, Spans(find, t, start))
    requires AllPlain(t, start, Spans(find, t, start))
    ensures Apart(t, start, Spans(find, t, start), rev)
    decreases |t| - start
  {
    assert FindsAt(find, t, start) && MarkedAt(find, t, start);
    if find(t, start).Some? {
      var (i, j) := find(t, start).value;
      SpansFirst(find, t, start);
      MarkIsClear(t, i, j, rev);
      MarkedIsApart(find, t, j, rev);
    }
  }

  /** What matches such a pattern has a mark; and no brackets. */
  lemma BarrierIsMarked(p: Pattern, mark: char, find: Finder)
    requires BarrierSafe(p, mark) && FindsOnly(p, find)
    ensures FindsMarked(find)
  {
    forall t: string, start: nat | start <= |t| ensures MarkedAt(find, t, start) {
      assert FindsAt(find, t, start) && FoundMatches(p, find, t, start);
      if find(t, start).Some? { MarkIn(t[find(t, start).value.0..find(t, start).value.1], mark); }
    }
  }

  lemma MarkIn(m: string, mark: char)
    requires mark in m && Mark(mark)
    ensures HasMark(m)
  {
  }

  lemma {:induction false} BarrierIsPlain(p: Pattern, mark: char, find: Finder, t: string, start: nat)
    requires BarrierSafe(p, mark) && FindsOnly(p, find) && start <= |t| && Placed(t, start, Spans(find, t, start))
    ensures AllPlain(t, start, Spans(find, t, start))
    decreases |t| - start
  {
    assert FindsAt(find, t, start) && FoundMatches(p, find, t, start);
    if find(t, start).Some? {
      SpansFirst(find, t, start);
      BarrierIsPlain(p, mark, find, t, find(t, start).value.1);
    }
  }

  /** A private-key block has a hyphen. */
  lemma BlocksAreMarked(find: Finder)
    requires FindsOnly(KeyBlock.Block(IsBegin, IsEnd), find)
    ensures FindsMarked(find)
  {
    MarkersSeparable();
    forall t: string, start: nat | start <= |t| ensures MarkedAt(find, t, start) {
      assert FindsAt(find, t, start) && FoundMatches(KeyBlock.Block(IsBegin, IsEnd), find, t, start);
      if find(t, start).Some? {
        var m := t[find(t, start).value.0..find(t, start).value.1];
        var i, j :| 0 <= i <= j <= |m| && Marked(IsBegin, IsEnd, m, i, j);
        assert '-' in m[..i];
        MarkIn(m, '-');
      }
    }
  }

  // ---------------------------------------------------------------- the redactor's passes

  /** Passes whose matches have to be looked at. */
  predicate NeedsCare(k: Kind) { k in {Phone, Url, Custom} }

  /** On the text each pass finds: phone numbers, URLs and custom terms have no bracket and lie inside no
      placeholder, and every match is what its placeholder stands for in the table. */
  ghost predicate CarefulPasses(digest: string -> string, t: string, ps: seq<Pass>, rev: map<string, string>)
    requires GoodPasses(ps)
    decreases |ps|
  {
    if ps == [] then true
    else
      assert GoodPass(ps[0]);
      SpansPlaced(ps[0].find, t, 0);
      var spans := Spans(ps[0].find, t, 0);
      && (NeedsCare(ps[0].kind) ==> Apart(t, 0, spans, rev)) && NoCollision(rev, t, 0, spans, Ph(digest, ps[0].tag))
      && CarefulPasses(digest, PassText(digest, t, ps[0]), ps[1..], rev)
  }

  /** The pass cannot touch a placeholder. */
  ghost predicate Harmless(p: Pass) {
    exists pattern, mark :: BarrierSafe(pattern, mark) && FindsOnly(pattern, p.find)
  }

  lemma {:induction false} CarefulIsSafe(digest: string -> string, t: string, ps: seq<Pass>, rev: map<string, string>)
    requires GoodPasses(ps) && PlaceholderKeys(rev) && CarefulPasses(digest, t, ps, rev)
    requires forall i :: 0 <= i < |ps| ==> NeedsCare(ps[i].kind) || Harmless(ps[i])
    ensures SafeFor(digest, t, ps, rev)
    decreases |ps|
  {
    if ps != [] {
      assert GoodPass(ps[0]);
      SpansPlaced(ps[0].find, t, 0);
      if !NeedsCare(ps[0].kind) {
        var pattern, mark :| BarrierSafe(pattern, mark) && FindsOnly(pattern, ps[0].find);
        BarrierIsMarked(pattern, mark, ps[0].find);
        BarrierIsPlain(pattern, mark, ps[0].find, t, 0);
        MarkedIsApart(ps[0].find, t, 0, rev);
      }
      assert forall i :: 0 <= i < |ps[1..]| ==> ps[1..][i] == ps[i + 1];
      CarefulIsSafe(digest, PassText(digest, t, ps[0]), ps[1..], rev);
    }
  }

  lemma {:induction false} TermsNeedCare(terms: seq<string>)
    ensures forall i :: 0 <= i < |TermPasses(terms)| ==> TermPasses(terms)[i].kind == Custom
  {
    if terms != [] { TermsNeedCare(terms[1..]); }
  }

  /** The patterns report matches only. */
  ghost predicate PatternsMatch(p: Patterns) {
    && GoodPatterns(p) && FindsOnly(KeyBlock.Block(IsBegin, IsEnd), p.privateKey) && FindsOnly(IsApiKey, p.apiKey)
    && FindsOnly(IsEmail, p.email) && FindsOnly(IsEthAddress, p.ethAddress)
  }

  /** Private-key blocks with brackets inside are not kept as they are. */
  ghost predicate PlainBlocks(t: string, mode: RedactMode, p: Patterns)
    requires GoodPatterns(p)
  {
    SpansPlaced(p.privateKey, t, 0);
    mode == RedactMode.None || AllPlain(t, 0, Spans(p.privateKey, t, 0))
  }

  /** The round trip, for any text, in every mode and with any terms: unless a phone number, URL or custom
      term has a bracket or was found inside a placeholder, a private-key block has brackets inside, or
      two originals share a placeholder, the text comes back exactly when it holds no placeholder of the
      table. */
  lemma RedactorRoundTripIff(digest: string -> string, b: Book, t: string, mode: RedactMode, p: Patterns,
                             terms: seq<string>, rev: map<string, string>, keys: seq<string>)
    requires IsDigest(digest) && PatternsMatch(p) && GoodMap(rev) && PlaceholderKeys(rev) && PlainBlocks(t, mode, p)
    requires (PassesGood(mode, p, terms); CarefulPasses(digest, t, Passes(mode, p, terms), rev))
    requires (PassesGood(mode, p, terms); Knows(rev, Redacted(digest, b, t, Passes(mode, p, terms)).1))
    requires KeyOrder(keys, rev)
    ensures GoodPasses(Passes(mode, p, terms))
    ensures Sequential(Redacted(digest, b, t, Passes(mode, p, terms)).0, keys, rev) == t
       <==> forall k :: k in rev ==> !Occurs(k, t)
  {
    var ps := Passes(mode, p, terms);
    PassesGood(mode, p, terms);
    if mode != RedactMode.None { FirstIsSafe(digest, t, mode, p, terms, rev); }
    RehydrateUndoesRedactIff(digest, b, t, ps, rev, keys);
  }

  lemma FirstIsSafe(digest: string -> string, t: string, mode: RedactMode, p: Patterns, terms: seq<string>,
                    rev: map<string, string>)
    requires PatternsMatch(p) && PlaceholderKeys(rev) && PlainBlocks(t, mode, p) && mode != RedactMode.None
    requires (PassesGood(mode, p, terms); CarefulPasses(digest, t, Passes(mode, p, terms), rev))
    ensures GoodPasses(Passes(mode, p, terms)) && SafeFor(digest, t, Passes(mode, p, terms), rev)
  {
    var ps := Passes(mode, p, terms);
    PassesGood(mode, p, terms);
    assert GoodPass(ps[0]) && ps[0].find == p.privateKey;
    SpansPlaced(p.privateKey, t, 0);
    BlocksAreMarked(p.privateKey);
    MarkedIsApart(p.privateKey, t, 0, rev);
    RestIsHarmless(mode, p, terms);
    CarefulIsSafe(digest, PassText(digest, t, ps[0]), ps[1..], rev);
  }

  lemma RestIsHarmless(mode: RedactMode, p: Patterns, terms: seq<string>)
    requires mode != RedactMode.None && PatternsMatch(p)
    ensures var ps := Passes(mode, p, terms)[1..];
            forall i :: 0 <= i < |ps| ==> NeedsCare(ps[i].kind) || Harmless(ps[i])
  {
    TermsNeedCare(terms);
    ApiKeySafe();
    EmailSafe();
    EthAddressSafe();
    var rx := RegexPasses(mode, p);
    var ps := Passes(mode, p, terms);
    assert BarrierSafe(IsApiKey, '-') && BarrierSafe(IsEmail, '@') && BarrierSafe(IsEthAddress, 'x');
    assert Harmless(rx[1]) && Harmless(rx[2]) && Harmless(rx[4]);
    forall i | 0 <= i < |ps[1..]| ensures NeedsCare(ps[1..][i].kind) || Harmless(ps[1..][i]) {
      if i + 1 < |rx| { assert ps[1..][i] == rx[i + 1]; }
      else { assert ps[1..][i] == TermPasses(terms)[i + 1 - |rx|]; }
    }
  }

  /** In particular a text without brackets comes back. */
  lemma RedactorRoundTrip(digest: string -> string, b: Book, t: string, mode: RedactMode, p: Patterns,
                          terms: seq<string>, rev: map<string, string>, keys: seq<string>)
    requires IsDigest(digest) && PatternsMatch(p) && GoodMap(rev) && PlaceholderKeys(rev) && BracketFree(t)
    requires (PassesGood(mode, p, terms); CarefulPasses(digest, t, Passes(mode, p, terms), rev))
    requires (PassesGood(mode, p, terms); Knows(rev, Redacted(digest, b, t, Passes(mode, p, terms)).1))
    requires KeyOrder(keys, rev)
    ensures GoodPasses(Passes(mode, p, terms))
    ensures Sequential(Redacted(digest, b, t, Passes(mode, p, terms)).0, keys, rev) == t
  {
    SpansPlaced(p.privateKey, t, 0);
    PlainTextIsPlain(t, 0, Spans(p.privateKey, t, 0));
    PlainHoldsNoKey(t, rev);
    RedactorRoundTripIff(digest, b, t, mode, p, terms, rev, keys);
  }
}
