/** What redaction guarantees to remove, whatever later passes and custom terms do to the text. */
module Leak {
  import opened Redaction

  type Pattern = string -> bool

  /** No part of the text matches. */
  ghost predicate NoMatch(p: Pattern, t: string) {
    forall i, j :: 0 <= i <= j <= |t| ==> !p(t[i..j])
  }

  /** Matches contain no bracket, and contain a character that no placeholder contains. */
  ghost predicate BarrierSafe(p: Pattern, mark: char) {
    && !TagChar(mark) && !HexChar(mark) && mark != '<' && mark != '>'
    && forall s :: p(s) ==> BracketFree(s) && mark in s
  }

  ghost predicate MakesPlaceholders(ph: string -> string) {
    forall m: string :: IsPlaceholder(ph(m))
  }

  /** The finder reports the leftmost match: nothing matches that starts before it. */
  ghost predicate LeftmostAt(p: Pattern, find: Finder, t: string, start: nat)
    requires start <= |t| && FindsAt(find, t, start)
  {
    match find(t, start)
    case None => forall i, j :: start <= i <= j <= |t| ==> !p(t[i..j])
    case Some(m) => forall i, j :: start <= i < m.0 && i <= j <= |t| ==> !p(t[i..j])
  }

  ghost predicate FindsLeftmost(p: Pattern, find: Finder) {
    IsFinder(find) && forall t: string, start: nat :: start <= |t| ==>
      FindsAt(find, t, start) && LeftmostAt(p, find, t, start)
  }

  lemma SliceSlice(t: string, i: nat, j: nat, a: nat, b: nat)
    requires i <= j <= |t| && a <= b <= j - i
    ensures t[i..j][a..b] == t[i + a..i + b]
  {
    var u, v := t[i..j][a..b], t[i + a..i + b];
    assert |u| == |v| && forall k :: 0 <= k < |u| ==> u[k] == t[i + a + k] == v[k];
  }

  lemma TailSlice(t: string, start: nat, a: nat, b: nat)
    requires start <= |t| && a <= b <= |t| - start
    ensures t[start..][a..b] == t[start + a..start + b]
  {
    SliceSlice(t, start, |t|, a, b);
    assert t[start..|t|] == t[start..];
  }

  lemma PartHasNoMatch(p: Pattern, t: string, i: nat, j: nat)
    requires NoMatch(p, t) && i <= j <= |t|
    ensures NoMatch(p, t[i..j])
  {
    forall a, b | 0 <= a <= b <= |t[i..j]| ensures !p(t[i..j][a..b]) {
      SliceSlice(t, i, j, a, b);
    }
  }

  /** Matches have no bracket, and are not empty. */
  ghost predicate Plainly(p: Pattern) { forall s :: p(s) ==> BracketFree(s) && s != "" }

  /** In brackets, and without a match inside. */
  ghost predicate Fence(p: Pattern, ph: string) {
    |ph| >= 2 && ph[0] == '<' && ph[|ph| - 1] == '>' && NoMatch(p, ph)
  }

  lemma SafeIsFence(p: Pattern, mark: char, ph: string)
    requires BarrierSafe(p, mark) && IsPlaceholder(ph)
    ensures Plainly(p) && Fence(p, ph)
  {
    forall i, j | 0 <= i <= j <= |ph| ensures !p(ph[i..j]) {
      assert forall k :: i <= k < j ==> ph[i..j][k - i] == ph[k];
      assert mark !in ph[i..j];
    }
  }

  /** A placeholder separates: no match reaches into it or across it. */
  lemma Barrier(p: Pattern, mark: char, a: string, ph: string, b: string)
    requires BarrierSafe(p, mark) && NoMatch(p, a) && NoMatch(p, b) && IsPlaceholder(ph)
    ensures NoMatch(p, a + ph + b)
  {
    SafeIsFence(p, mark, ph);
    FenceSeparates(p, a, ph, b);
  }

  lemma FenceSeparates(p: Pattern, a: string, ph: string, b: string)
    requires Plainly(p) && NoMatch(p, a) && NoMatch(p, b) && Fence(p, ph)
    ensures NoMatch(p, a + ph + b)
  {
    forall i, j | 0 <= i <= j <= |a + ph + b| ensures !p((a + ph + b)[i..j]) {
      MatchIsInPart(p, a, ph, b, i, j);
    }
  }

  lemma InTheMiddle(a: string, s: string, b: string, k: nat)
    requires k < |s|
    ensures (a + s + b)[|a| + k] == s[k]
  {
    assert (a + s)[|a| + k] == s[k];
  }

  lemma SliceOfMiddle(a: string, s: string, b: string, x: nat, y: nat)
    requires x <= y <= |s|
    ensures (a + s + b)[|a| + x..|a| + y] == s[x..y]
  {
    var t, n := a + s + b, |a|;
    assert t[n..n + |s|] == s;
    SliceSlice(t, n, n + |s|, x, y);
  }

  lemma InSlice(t: string, i: nat, j: nat, k: nat)
    requires i <= k < j <= |t|
    ensures t[k] in t[i..j]
  {
    assert t[i..j][k - i] == t[k];
  }

  /** A match crosses no bracket, so it lies in front of the placeholder, inside it, or behind it. */
  lemma MatchIsInPart(p: Pattern, a: string, ph: string, b: string, i: nat, j: nat)
    requires Plainly(p) && |ph| >= 2 && ph[0] == '<' && ph[|ph| - 1] == '>' && i <= j <= |a + ph + b|
    ensures var (s, n) := ((a + ph + b)[i..j], |a| + |ph|);
            p(s) ==> || (j <= |a| && s == a[i..j])
                     || (|a| <= i && j <= n && s == ph[i - |a|..j - |a|])
                     || (n <= i && s == b[i - n..j - n])
  {
    var t, n := a + ph + b, |a| + |ph|;
    InTheMiddle(a, ph, b, 0);
    InTheMiddle(a, ph, b, |ph| - 1);
    if i <= |a| < j { InSlice(t, i, j, |a|); }
    if i <= n - 1 < j { InSlice(t, i, j, n - 1); }
    if j <= |a| { assert t[i..j] == a[i..j]; }
    else if n <= i { assert t[i..j] == b[i - n..j - n]; }
    else if |a| <= i && j <= n { SliceOfMiddle(a, ph, b, i - |a|, j - |a|); }
  }

  /** Replacing anything by placeholders creates no match. */
  lemma {:induction false} RewriteCreatesNone(p: Pattern, mark: char, t: string, start: nat, spans: seq<(nat, nat)>,
                                              ph: string -> string)
    requires BarrierSafe(p, mark) && MakesPlaceholders(ph) && Placed(t, start, spans) && NoMatch(p, t[start..])
    ensures NoMatch(p, Rewrite(t, start, spans, ph))
    decreases |spans|
  {
    if spans != [] {
      var (i, j) := spans[0];
      PartHasNoMatch(p, t[start..], 0, i - start);
      PartHasNoMatch(p, t[start..], j - start, |t| - start);
      assert t[start..][0..i - start] == t[start..i] && t[start..][j - start..|t| - start] == t[j..];
      RewriteCreatesNone(p, mark, t, j, spans[1..], ph);
      RewriteFirst(t, start, spans, ph);
      Barrier(p, mark, t[start..i], ph(t[i..j]), Rewrite(t, j, spans[1..], ph));
    }
  }

  /** Replacing every match leaves none, if the placeholders hold none. */
  lemma {:induction false} OwnPassLeavesNone(p: Pattern, find: Finder, t: string, start: nat, ph: string -> string)
    requires Plainly(p) && (forall m: string :: Fence(p, ph(m))) && FindsLeftmost(p, find) && start <= |t|
    ensures Placed(t, start, Spans(find, t, start))
    ensures NoMatch(p, Rewrite(t, start, Spans(find, t, start), ph))
    decreases |t| - start
  {
    SpansPlaced(find, t, start);
    assert FindsAt(find, t, start) && LeftmostAt(p, find, t, start);
    match find(t, start) {
      case None =>
        RestHasNoMatch(p, t, start);
      case Some(m) =>
        SpansFirst(find, t, start);
        OwnPassLeavesNone(p, find, t, m.1, ph);
        RewriteFirst(t, start, Spans(find, t, start), ph);
        GapHasNoMatch(p, t, start, m.0);
        FenceSeparates(p, t[start..m.0], ph(t[m.0..m.1]), Rewrite(t, m.1, Spans(find, t, m.1), ph));
    }
  }

  lemma RestHasNoMatch(p: Pattern, t: string, start: nat)
    requires start <= |t| && forall i, j :: start <= i <= j <= |t| ==> !p(t[i..j])
    ensures NoMatch(p, t[start..])
  {
    forall i, j | 0 <= i <= j <= |t[start..]| ensures !p(t[start..][i..j]) { TailSlice(t, start, i, j); }
  }

  lemma GapHasNoMatch(p: Pattern, t: string, start: nat, end: nat)
    requires Plainly(p) && start <= end <= |t|
    requires forall i, j :: start <= i < end && i <= j <= |t| ==> !p(t[i..j])
    ensures NoMatch(p, t[start..end])
  {
    forall i, j | 0 <= i <= j <= |t[start..end]| ensures !p(t[start..end][i..j]) {
      SliceSlice(t, start, end, i, j);
      if i == end - start { assert t[start..end][i..j] == []; }
    }
  }

  // ---------------------------------------------------------------- over all passes

  lemma PhMakesPlaceholders(digest: string -> string, tag: string)
    requires IsDigest(digest) && TagText(tag)
    ensures MakesPlaceholders(Ph(digest, tag))
  {
    forall m: string ensures IsPlaceholder(Ph(digest, tag)(m)) { PlaceholderShape(digest, tag, m); }
  }

  lemma {:induction false} LaterPassesCreateNone(p: Pattern, mark: char, digest: string -> string, b: Book, t: string,
                                                 ps: seq<Pass>)
    requires BarrierSafe(p, mark) && IsDigest(digest) && GoodPasses(ps) && NoMatch(p, t)
    ensures NoMatch(p, Redacted(digest, b, t, ps).0)
    decreases |ps|
  {
    if ps != [] {
      assert GoodPass(ps[0]);
      SpansPlaced(ps[0].find, t, 0);
      PhMakesPlaceholders(digest, ps[0].tag);
      assert t[0..] == t;
      RewriteCreatesNone(p, mark, t, 0, Spans(ps[0].find, t, 0), Ph(digest, ps[0].tag));
      LaterPassesCreateNone(p, mark, digest, PassBook(digest, b, t, ps[0]), PassText(digest, t, ps[0]), ps[1..]);
    }
  }

  /** If some pass looks for a pattern, the final text has no match for it, whatever came before and
      whatever comes after. */
  lemma {:induction false} PatternIsGone(p: Pattern, mark: char, digest: string -> string, b: Book, t: string,
                                         ps: seq<Pass>, n: nat)
    requires BarrierSafe(p, mark) && IsDigest(digest) && GoodPasses(ps) && n < |ps| && FindsLeftmost(p, ps[n].find)
    ensures NoMatch(p, Redacted(digest, b, t, ps).0)
    decreases |ps|
  {
    assert GoodPass(ps[0]);
    if n == 0 {
      PhMakesPlaceholders(digest, ps[0].tag);
      forall m: string ensures Fence(p, Ph(digest, ps[0].tag)(m)) {
        SafeIsFence(p, mark, Ph(digest, ps[0].tag)(m));
      }
      SafeIsFence(p, mark, Ph(digest, ps[0].tag)(""));
      OwnPassLeavesNone(p, ps[0].find, t, 0, Ph(digest, ps[0].tag));
      LaterPassesCreateNone(p, mark, digest, PassBook(digest, b, t, ps[0]), PassText(digest, t, ps[0]), ps[1..]);
    } else {
      PatternIsGone(p, mark, digest, PassBook(digest, b, t, ps[0]), PassText(digest, t, ps[0]), ps[1..], n - 1);
    }
  }

  // ---------------------------------------------------------------- literals

  function Is(literal: string): Pattern { s => s == literal }

  /** `str::find` reports the leftmost occurrence. */
  lemma LiteralFindsLeftmost(literal: string)
    requires literal != ""
    ensures FindsLeftmost(Is(literal), LiteralFinder(literal))
  {
    LiteralFinderFinds(literal);
    forall t: string, start: nat | start <= |t| ensures LeftmostAt(Is(literal), LiteralFinder(literal), t, start) {
      assert LiteralFinder(literal)(t, start) == FindLiteral(literal, t, start);
      forall i, j | start <= i <= j <= |t| && t[i..j] == literal
        ensures FindLiteral(literal, t, start).Some? && FindLiteral(literal, t, start).value.0 <= i
      {
        FindsNoLater(literal, t, start, i);
      }
    }
  }

  lemma {:induction false} FindsNoLater(literal: string, t: string, start: nat, i: nat)
    requires start <= i && i + |literal| <= |t| && t[i..i + |literal|] == literal
    ensures FindLiteral(literal, t, start).Some? && FindLiteral(literal, t, start).value.0 <= i
    decreases i - start
  {
    if start < i { FindsNoLater(literal, t, start + 1, i); }
  }

  // ---------------------------------------------------------------- the patterns

  predicate Letter(c: char) { 'a' <= c <= 'z' || 'A' <= c <= 'Z' }

  predicate Digit(c: char) { '0' <= c <= '9' }

  /** `sk-` and at least sixteen letters or digits. */
  predicate IsApiKey(s: string) {
    |s| >= 19 && s[..3] == "sk-" && forall i :: 3 <= i < |s| ==> Letter(s[i]) || Digit(s[i])
  }

  predicate LocalChar(c: char) { Letter(c) || Digit(c) || c in "._%+-" }

  predicate DomainChar(c: char) { Letter(c) || Digit(c) || c in ".-" }

  /** A local part, `@`, a domain, a dot and at least two letters. */
  predicate IsEmail(s: string) {
    exists at, dot :: 0 < at && at + 1 < dot && dot + 2 < |s| && EmailParts(s, at, dot)
  }

  predicate EmailParts(s: string, at: nat, dot: nat)
    requires at < dot < |s|
  {
    && s[at] == '@' && s[dot] == '.'
    && (forall i :: 0 <= i < at ==> LocalChar(s[i]))
    && (forall i :: at < i < dot ==> DomainChar(s[i]))
    && (forall i :: dot < i < |s| ==> Letter(s[i]))
  }

  /** `0x` and forty hex digits of either case. */
  predicate IsEthAddress(s: string) {
    |s| == 42 && s[0] == '0' && s[1] == 'x' && forall i :: 2 <= i < 42 ==> HexChar(s[i]) || 'A' <= s[i] <= 'F'
  }

  lemma ApiKeySafe()
    ensures BarrierSafe(IsApiKey, '-')
  {
    forall s | IsApiKey(s) ensures BracketFree(s) && '-' in s {
      assert s[..3][0] == 's' && s[..3][1] == 'k' && s[..3][2] == '-';
      assert s[0] == 's' && s[1] == 'k' && s[2] == '-';
    }
  }

  lemma EmailSafe()
    ensures BarrierSafe(IsEmail, '@')
  {
    forall s | IsEmail(s) ensures BracketFree(s) && '@' in s {
      var at, dot :| 0 < at && at + 1 < dot && dot + 2 < |s| && EmailParts(s, at, dot);
      assert s[at] == '@';
      forall i | 0 <= i < |s| ensures s[i] != '<' && s[i] != '>' {
      }
    }
  }

  lemma EthAddressSafe()
    ensures BarrierSafe(IsEthAddress, 'x')
  {
    forall s | IsEthAddress(s) ensures BracketFree(s) && 'x' in s {
      assert s[1] == 'x';
    }
  }
}
