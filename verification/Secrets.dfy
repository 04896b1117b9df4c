/** What the patterns mean, spelled out in characters, and what a text without them looks like. */
module Secrets {
  import opened Leak
  import opened KeyBlock

  // ---------------------------------------------------------------- patterns from their parts

  predicate AsciiAlnum(s: string) {
    forall c :: c in s ==> 'a' <= c <= 'z' || 'A' <= c <= 'Z' || '0' <= c <= '9'
  }

  predicate AsciiLetters(s: string) { forall c :: c in s ==> 'a' <= c <= 'z' || 'A' <= c <= 'Z' }

  predicate HexDigits(s: string) { forall c :: c in s ==> '0' <= c <= '9' || 'a' <= c <= 'f' || 'A' <= c <= 'F' }

  predicate LocalPart(s: string) {
    forall c :: c in s ==> 'a' <= c <= 'z' || 'A' <= c <= 'Z' || '0' <= c <= '9' || c == '.' || c == '_' || c == '%'
                           || c == '+' || c == '-'
  }

  predicate DomainPart(s: string) {
    forall c :: c in s ==> 'a' <= c <= 'z' || 'A' <= c <= 'Z' || '0' <= c <= '9' || c == '.' || c == '-'
  }

  predicate CapitalsAndSpaces(s: string) { forall c :: c in s ==> 'A' <= c <= 'Z' || c == ' ' }

  /** `sk-` and sixteen letters or digits. */
  lemma ApiKeyIff(s: string)
    ensures IsApiKey(s) <==> exists k: string :: s == "sk-" + k && |k| >= 16 && AsciiAlnum(k)
  {
    if IsApiKey(s) {
      var k := s[3..];
      assert s == s[..3] + k == "sk-" + k;
      assert forall i :: 0 <= i < |k| ==> k[i] == s[i + 3];
    }
    if exists k: string :: s == "sk-" + k && |k| >= 16 && AsciiAlnum(k) {
      var k: string :| s == "sk-" + k && |k| >= 16 && AsciiAlnum(k);
      assert s[..3] == "sk-";
      assert forall i :: 3 <= i < |s| ==> s[i] == k[i - 3] && k[i - 3] in k;
    }
  }

  predicate EmailOf(a: string, d: string, top: string) {
    a != "" && d != "" && |top| >= 2 && LocalPart(a) && DomainPart(d) && AsciiLetters(top)
  }

  function Address(a: string, d: string, top: string): string { a + "@" + d + "." + top }

  /** A local part, `@`, a domain, a dot and two letters. */
  lemma EmailIff(s: string)
    ensures IsEmail(s) <==> exists a: string, d: string, top: string :: s == Address(a, d, top) && EmailOf(a, d, top)
  {
    if IsEmail(s) {
      var at, dot :| 0 < at && at + 1 < dot && dot + 2 < |s| && EmailParts(s, at, dot);
      EmailSplits(s, at, dot);
    }
    if exists a: string, d: string, top: string :: s == Address(a, d, top) && EmailOf(a, d, top) {
      var a: string, d: string, top: string :| s == Address(a, d, top) && EmailOf(a, d, top);
      EmailJoins(a, d, top);
    }
  }

  lemma EmailSplits(s: string, at: nat, dot: nat)
    requires 0 < at && at + 1 < dot && dot + 2 < |s| && EmailParts(s, at, dot)
    ensures s == Address(s[..at], s[at + 1..dot], s[dot + 1..]) && EmailOf(s[..at], s[at + 1..dot], s[dot + 1..])
  {
    var a, d, top := s[..at], s[at + 1..dot], s[dot + 1..];
    assert s == a + [s[at]] + d + [s[dot]] + top;
    forall c | c in a ensures LocalChar(c) { var i :| 0 <= i < |a| && a[i] == c; }
    forall c | c in d ensures DomainChar(c) { var i :| 0 <= i < |d| && d[i] == c; }
    forall c | c in top ensures Letter(c) { var i :| 0 <= i < |top| && top[i] == c; }
  }

  lemma EmailJoins(a: string, d: string, top: string)
    requires EmailOf(a, d, top)
    ensures IsEmail(Address(a, d, top))
  {
    var s, at, dot := Address(a, d, top), |a|, |a| + 1 + |d|;
    assert s[..at] == a && s[at] == '@' && s[at + 1..dot] == d && s[dot] == '.' && s[dot + 1..] == top;
    forall i | 0 <= i < at ensures LocalChar(s[i]) { assert s[i] == a[i] && a[i] in a; }
    forall i | at < i < dot ensures DomainChar(s[i]) { assert s[i] == d[i - at - 1] && d[i - at - 1] in d; }
    forall i | dot < i < |s| ensures Letter(s[i]) { assert s[i] == top[i - dot - 1] && top[i - dot - 1] in top; }
    assert EmailParts(s, at, dot);
  }

  /** `0x` and forty hex digits. */
  lemma EthAddressIff(s: string)
    ensures IsEthAddress(s) <==> exists h: string :: s == "0x" + h && |h| == 40 && HexDigits(h)
  {
    if IsEthAddress(s) {
      var h := s[2..];
      assert s == [s[0]] + [s[1]] + h == "0x" + h;
      assert forall i :: 0 <= i < |h| ==> h[i] == s[i + 2];
    }
    if exists h: string :: s == "0x" + h && |h| == 40 && HexDigits(h) {
      var h: string :| s == "0x" + h && |h| == 40 && HexDigits(h);
      assert forall i :: 2 <= i < |s| ==> s[i] == h[i - 2] && h[i - 2] in h;
    }
  }

  /** The dashes and the word, capitals and spaces, `PRIVATE KEY` and dashes. */
  lemma MarkersIff(s: string)
    ensures IsBegin(s) <==> exists n: string :: s == "-----BEGIN " + n + "PRIVATE KEY-----" && CapitalsAndSpaces(n)
    ensures IsEnd(s) <==> exists n: string :: s == "-----END " + n + "PRIVATE KEY-----" && CapitalsAndSpaces(n)
  {
    MarkerIff("-----BEGIN ", PRIVATE_KEY, s);
    MarkerIff("-----END ", PRIVATE_KEY, s);
  }

  lemma MarkerIff(head: string, tail: string, s: string)
    requires tail == PRIVATE_KEY
    ensures Marker(head, s) <==> exists n: string :: s == head + n + tail && CapitalsAndSpaces(n)
  {
    if Marker(head, s) {
      var n := s[|head|..|s| - |tail|];
      assert s == s[..|head|] + n + s[|s| - |tail|..];
      forall c | c in n ensures 'A' <= c <= 'Z' || c == ' ' { var i :| 0 <= i < |n| && n[i] == c; }
      assert s == head + n + tail && CapitalsAndSpaces(n);
    }
    if exists n: string :: s == head + n + tail && CapitalsAndSpaces(n) {
      var n: string :| s == head + n + tail && CapitalsAndSpaces(n);
      assert s[..|head|] == head && s[|s| - |tail|..] == tail;
      assert forall i :: |head| <= i < |s| - |tail| ==> s[i] == n[i - |head|] && n[i - |head|] in n;
    }
  }

  lemma EnclosedIff(begin: Pattern, end: Pattern, s: string)
    ensures Enclosed(begin, end, s) <==> exists b: string, m: string, e: string :: s == b + m + e && begin(b) && end(e)
  {
    if Enclosed(begin, end, s) {
      var i, j :| 0 <= i <= j <= |s| && Marked(begin, end, s, i, j);
      assert s == s[..i] + s[i..j] + s[j..];
    }
    if exists b: string, m: string, e: string :: s == b + m + e && begin(b) && end(e) {
      var b: string, m: string, e: string :| s == b + m + e && begin(b) && end(e);
      assert s[..|b|] == b && s[|b| + |m|..] == e;
      assert Marked(begin, end, s, |b|, |b| + |m|);
    }
  }

  // ---------------------------------------------------------------- texts without them

  /** `sk-` followed by sixteen letters or digits. */
  predicate ApiKeyAt(t: string, i: nat) {
    i + 19 <= |t| && t[i..i + 3] == "sk-" && AsciiAlnum(t[i + 3..i + 19])
  }

  /** `@` between a local character and a domain, a dot and two letters. */
  predicate EmailAt(t: string, at: nat, dot: nat) {
    && 0 < at && at + 1 < dot && dot + 2 < |t| && t[at] == '@' && t[dot] == '.'
    && LocalPart(t[at - 1..at]) && DomainPart(t[at + 1..dot]) && AsciiLetters(t[dot + 1..dot + 3])
  }

  /** `0x` followed by forty hex digits. */
  predicate EthAddressAt(t: string, i: nat) {
    i + 42 <= |t| && t[i..i + 2] == "0x" && HexDigits(t[i + 2..i + 42])
  }

  /** A begin marker with an end marker anywhere behind it. */
  predicate KeyBlockIn(t: string, a: string, n: string, m: string, k: string, z: string) {
    && t == a + ("-----BEGIN " + n + "PRIVATE KEY-----") + m + ("-----END " + k + "PRIVATE KEY-----") + z
    && CapitalsAndSpaces(n) && CapitalsAndSpaces(k)
  }

  /** None of the four anywhere. */
  ghost predicate SecretFree(t: string) {
    && (forall i: nat :: !ApiKeyAt(t, i)) && (forall at: nat, dot: nat :: !EmailAt(t, at, dot))
    && (forall i: nat :: !EthAddressAt(t, i))
    && forall a: string, n: string, m: string, k: string, z: string :: !KeyBlockIn(t, a, n, m, k, z)
  }

  lemma ApiKeyMatches(t: string, i: nat)
    requires ApiKeyAt(t, i)
    ensures IsApiKey(t[i..i + 19])
  {
    assert t[i..i + 19] == "sk-" + t[i + 3..i + 19];
    ApiKeyIff(t[i..i + 19]);
  }

  lemma MatchHasApiKey(t: string, i: nat, j: nat)
    requires i <= j <= |t| && IsApiKey(t[i..j])
    ensures ApiKeyAt(t, i)
  {
    SliceSlice(t, i, j, 0, 3);
    SliceSlice(t, i, j, 3, 19);
    var k := t[i..j][3..19];
    forall c | c in k ensures 'a' <= c <= 'z' || 'A' <= c <= 'Z' || '0' <= c <= '9' {
      var x :| 0 <= x < |k| && k[x] == c;
      assert t[i..j][x + 3] == c;
    }
  }

  lemma NoApiKeyIff(t: string)
    ensures NoMatch(IsApiKey, t) <==> forall i: nat :: !ApiKeyAt(t, i)
  {
    forall i: nat | ApiKeyAt(t, i) ensures !NoMatch(IsApiKey, t) { ApiKeyMatches(t, i); }
    forall i: nat, j: nat | i <= j <= |t| && IsApiKey(t[i..j]) ensures ApiKeyAt(t, i) { MatchHasApiKey(t, i, j); }
  }

  lemma EmailMatches(t: string, at: nat, dot: nat)
    requires EmailAt(t, at, dot)
    ensures IsEmail(t[at - 1..dot + 3])
  {
    var a, d, top := t[at - 1..at], t[at + 1..dot], t[dot + 1..dot + 3];
    EmailJoins(a, d, top);
    assert t[at - 1..dot + 3] == a + [t[at]] + d + [t[dot]] + top;
  }

  lemma MatchHasEmail(t: string, i: nat, j: nat) returns (at: nat, dot: nat)
    requires i <= j <= |t| && IsEmail(t[i..j])
    ensures EmailAt(t, at, dot)
  {
    var s := t[i..j];
    var x, y :| 0 < x && x + 1 < y && y + 2 < |s| && EmailParts(s, x, y);
    PartsInText(t, i, j, x, y);
    at, dot := i + x, i + y;
  }

  lemma PartsInText(t: string, i: nat, j: nat, at: nat, dot: nat)
    requires i <= j <= |t| && 0 < at && at + 1 < dot && dot + 2 < |t[i..j]| && EmailParts(t[i..j], at, dot)
    ensures EmailAt(t, i + at, i + dot)
  {
    var s := t[i..j];
    assert forall x :: 0 <= x < |s| ==> s[x] == t[i + x];
    var a, d, top := t[i + at - 1..i + at], t[i + at + 1..i + dot], t[i + dot + 1..i + dot + 3];
    forall c | c in a ensures LocalChar(c) { assert c == s[at - 1]; }
    forall c | c in d ensures DomainChar(c) {
      var x :| 0 <= x < |d| && d[x] == c;
      assert s[at + 1 + x] == c;
    }
    forall c | c in top ensures Letter(c) { assert c == s[dot + 1] || c == s[dot + 2]; }
  }

  lemma NoEmailIff(t: string)
    ensures NoMatch(IsEmail, t) <==> forall at: nat, dot: nat :: !EmailAt(t, at, dot)
  {
    forall at: nat, dot: nat | EmailAt(t, at, dot) ensures !NoMatch(IsEmail, t) { EmailMatches(t, at, dot); }
    forall i: nat, j: nat | i <= j <= |t| && IsEmail(t[i..j]) ensures exists at: nat, dot: nat :: EmailAt(t, at, dot) {
      var at, dot := MatchHasEmail(t, i, j);
    }
  }

  lemma EthAddressMatches(t: string, i: nat)
    requires EthAddressAt(t, i)
    ensures IsEthAddress(t[i..i + 42])
  {
    assert t[i..i + 42] == "0x" + t[i + 2..i + 42];
    EthAddressIff(t[i..i + 42]);
  }

  lemma MatchIsEthAddress(t: string, i: nat, j: nat)
    requires i <= j <= |t| && IsEthAddress(t[i..j])
    ensures EthAddressAt(t, i)
  {
    EthAddressIff(t[i..j]);
    var h: string :| t[i..j] == "0x" + h && |h| == 40 && HexDigits(h);
    SliceSlice(t, i, j, 0, 2);
    SliceSlice(t, i, j, 2, 42);
    assert t[i..j][0..2] == "0x" && t[i..j][2..42] == h;
  }

  lemma NoEthAddressIff(t: string)
    ensures NoMatch(IsEthAddress, t) <==> forall i: nat :: !EthAddressAt(t, i)
  {
    forall i: nat | EthAddressAt(t, i) ensures !NoMatch(IsEthAddress, t) { EthAddressMatches(t, i); }
    forall i: nat, j: nat | i <= j <= |t| && IsEthAddress(t[i..j]) ensures EthAddressAt(t, i) {
      MatchIsEthAddress(t, i, j);
    }
  }

  lemma NoKeyBlockIff(t: string)
    ensures NoMatch(Block(IsBegin, IsEnd), t) <==>
            forall a: string, n: string, m: string, k: string, z: string :: !KeyBlockIn(t, a, n, m, k, z)
  {
    forall a: string, n: string, m: string, k: string, z: string | KeyBlockIn(t, a, n, m, k, z)
      ensures !NoMatch(Block(IsBegin, IsEnd), t)
    {
      BlockMatches(t, a, n, m, k, z);
    }
    forall i: nat, j: nat | i <= j <= |t| && Block(IsBegin, IsEnd)(t[i..j])
      ensures exists a: string, n: string, m: string, k: string, z: string :: KeyBlockIn(t, a, n, m, k, z)
    {
      var n, m, k := MatchIsBlock(t, i, j);
    }
  }

  lemma BlockMatches(t: string, a: string, n: string, m: string, k: string, z: string)
    requires KeyBlockIn(t, a, n, m, k, z)
    ensures !NoMatch(Block(IsBegin, IsEnd), t)
  {
    var b, e := "-----BEGIN " + n + "PRIVATE KEY-----", "-----END " + k + "PRIVATE KEY-----";
    MarkersIff(b);
    MarkersIff(e);
    EnclosedIff(IsBegin, IsEnd, b + m + e);
    BlockSlice(a, b, m, e, z);
    assert Block(IsBegin, IsEnd)(t[|a|..|a| + |b + m + e|]);
  }

  lemma BlockSlice(a: string, b: string, m: string, e: string, z: string)
    ensures (a + b + m + e + z)[|a|..|a| + |b + m + e|] == b + m + e
  {
    assert a + b + m + e + z == a + (b + m + e) + z;
  }

  lemma MatchIsBlock(t: string, i: nat, j: nat) returns (n: string, m: string, k: string)
    requires i <= j <= |t| && Enclosed(IsBegin, IsEnd, t[i..j])
    ensures KeyBlockIn(t, t[..i], n, m, k, t[j..])
  {
    EnclosedIff(IsBegin, IsEnd, t[i..j]);
    var b: string, mid: string, e: string :| t[i..j] == b + mid + e && IsBegin(b) && IsEnd(e);
    MarkersIff(b);
    MarkersIff(e);
    n :| b == "-----BEGIN " + n + "PRIVATE KEY-----" && CapitalsAndSpaces(n);
    k :| e == "-----END " + k + "PRIVATE KEY-----" && CapitalsAndSpaces(k);
    m := mid;
    Rejoin(t, i, j, b, m, e);
  }

  lemma Rejoin(t: string, i: nat, j: nat, b: string, m: string, e: string)
    requires i <= j <= |t| && t[i..j] == b + m + e
    ensures t == t[..i] + b + m + e + t[j..]
  {
    assert t == t[..i] + t[i..j] + t[j..];
  }

  /** The four patterns and the four statements in characters say the same. */
  lemma SecretFreeIff(t: string)
    ensures SecretFree(t) <==> NoMatch(IsApiKey, t) && NoMatch(IsEmail, t) && NoMatch(IsEthAddress, t)
                               && NoMatch(Block(IsBegin, IsEnd), t)
  {
    NoApiKeyIff(t);
    NoEmailIff(t);
    NoEthAddressIff(t);
    NoKeyBlockIff(t);
  }
}
