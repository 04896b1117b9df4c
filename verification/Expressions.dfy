/** What phone numbers and URLs are, where matches end, what strict redaction leaves, and what redaction
    leaves alone. */
module Expressions {
  import opened Redaction
  import opened Template
  import opened Leak
  import opened KeyBlock
  import opened Secrets
  import opened LocalRedactor
  import opened Matchers
  import opened Terms

  // ---------------------------------------------------------------- from their parts

  /** The code points with the property White_Space. */
  lemma WhiteIff(c: char)
    ensures White(c) <==>
            c as int in {9, 10, 11, 12, 13, 32, 0x85, 0xA0, 0x1680, 0x2000, 0x2001, 0x2002, 0x2003, 0x2004, 0x2005,
                         0x2006, 0x2007, 0x2008, 0x2009, 0x200A, 0x2028, 0x2029, 0x202F, 0x205F, 0x3000}
  {
  }

  predicate PhoneMiddle(s: string) {
    forall c :: c in s ==> '0' <= c <= '9' || White(c) || c == '-' || c == '(' || c == ')'
  }

  /** An optional plus, a digit, at least seven digits, blanks, hyphens and parentheses, a digit. */
  predicate PhoneOf(plus: string, a: char, m: string, z: char) {
    (plus == "" || plus == "+") && '0' <= a <= '9' && '0' <= z <= '9' && |m| >= 7 && PhoneMiddle(m)
  }

  function PhoneText(plus: string, a: char, m: string, z: char): string { plus + ([a] + m + [z]) }

  ghost predicate IsPhoneText(s: string) {
    exists plus: string, a: char, m: string, z: char :: PhoneOf(plus, a, m, z) && s == PhoneText(plus, a, m, z)
  }

  lemma PhoneIff(s: string)
    ensures IsPhone(s) <==> IsPhoneText(s)
  {
    if IsPhone(s) { var plus, a, m, z := PhoneParts(s); }
    if IsPhoneText(s) {
      var plus: string, a: char, m: string, z: char :| PhoneOf(plus, a, m, z) && s == PhoneText(plus, a, m, z);
      PhoneJoins(plus, a, m, z);
    }
  }

  lemma PhoneParts(s: string) returns (plus: string, a: char, m: string, z: char)
    requires IsPhone(s)
    ensures PhoneOf(plus, a, m, z) && s == PhoneText(plus, a, m, z)
  {
    var n: string;
    if s != [] && s[0] == '+' { plus, n := "+", s[1..]; } else { plus, n := "", s; }
    assert s == plus + n;
    PhoneSplits(plus, n);
    a, m, z := n[0], n[1..|n| - 1], n[|n| - 1];
  }

  lemma PhoneSplits(plus: string, n: string)
    requires (plus == "" || plus == "+") && PhoneDigits(n)
    ensures plus + n == PhoneText(plus, n[0], n[1..|n| - 1], n[|n| - 1])
    ensures PhoneOf(plus, n[0], n[1..|n| - 1], n[|n| - 1])
  {
    var m := n[1..|n| - 1];
    forall c | c in m ensures '0' <= c <= '9' || White(c) || c == '-' || c == '(' || c == ')' {
      var i :| 0 <= i < |m| && m[i] == c;
      assert PhoneChar(n[i + 1]);
    }
    assert n == [n[0]] + m + [n[|n| - 1]];
  }

  lemma DigitsJoin(a: char, m: string, z: char)
    requires PhoneOf("", a, m, z)
    ensures PhoneDigits([a] + m + [z])
  {
    var n := [a] + m + [z];
    forall i | 0 < i < |n| - 1 ensures PhoneChar(n[i]) { assert n[i] == m[i - 1] && m[i - 1] in m; }
  }

  lemma PlusOrNot(plus: string, n: string)
    requires (plus == "" || plus == "+") && PhoneDigits(n)
    ensures IsPhone(plus + n)
  {
    var s := plus + n;
    assert plus == "" ==> s == n;
    assert plus == "+" ==> s[0] == '+' && s[1..] == n;
  }

  lemma PhoneJoins(plus: string, a: char, m: string, z: char)
    requires PhoneOf(plus, a, m, z)
    ensures IsPhone(PhoneText(plus, a, m, z))
  {
    DigitsJoin(a, m, z);
    PlusOrNot(plus, [a] + m + [z]);
  }

  predicate UrlOf(head: string, r: string) {
    (head == "http://" || head == "https://") && r != "" && forall c :: c in r ==> !White(c)
  }

  /** `http://` or `https://`, and at least one character, none of them blank. */
  lemma UrlIff(s: string)
    ensures IsUrl(s) <==> exists head: string, r: string :: s == head + r && UrlOf(head, r)
  {
    if IsUrlFrom("http://", s) { UrlSplits("http://", s); }
    if IsUrlFrom("https://", s) { UrlSplits("https://", s); }
    if exists head: string, r: string :: s == head + r && UrlOf(head, r) {
      var head: string, r: string :| s == head + r && UrlOf(head, r);
      assert s[..|head|] == head && s[|head|..] == r;
      assert IsUrlFrom(head, s);
    }
  }

  lemma UrlSplits(head: string, s: string)
    requires IsUrlFrom(head, s)
    ensures s == head + s[|head|..] && s[|head|..] != "" && forall c :: c in s[|head|..] ==> !White(c)
  {
  }

  // ---------------------------------------------------------------- where matches end

  lemma FoundIsWhole(p: Pattern, greed: Greed, t: string, start: nat)
    requires start <= |t| && Matcher(p, greed)(t, start).Some?
    ensures var (i, j) := Matcher(p, greed)(t, start).value;
            start <= i < j <= |t| && p(t[i..j]) && Whole(p, greed, t, i, j)
  {
    assert Matcher(p, greed)(t, start) == Search(p, greed, t, start);
  }

  lemma OneLonger(t: string, i: nat, j: nat)
    requires i <= j < |t|
    ensures t[i..j + 1] == t[i..j] + [t[j]]
  {
  }

  /** An API key is taken whole: behind it there is no letter and no digit. */
  lemma ApiKeyIsTakenWhole(t: string, start: nat)
    requires start <= |t| && REGEXES.apiKey(t, start).Some?
    ensures var (i, j) := REGEXES.apiKey(t, start).value;
            start <= i < j <= |t| && IsApiKey(t[i..j]) && (j < |t| ==> !AsciiAlnum([t[j]]))
  {
    FoundIsWhole(IsApiKey, Greedy, t, start);
    var (i, j) := REGEXES.apiKey(t, start).value;
    if j < |t| && AsciiAlnum([t[j]]) {
      assert t[j] in [t[j]];
      LongerKey(t[i..j], t[j]);
      OneLonger(t, i, j);
    }
  }

  lemma LongerKey(s: string, c: char)
    requires IsApiKey(s) && (Letter(c) || Digit(c))
    ensures IsApiKey(s + [c])
  {
    assert (s + [c])[..3] == s[..3];
  }

  /** A URL is taken up to the next blank. */
  lemma UrlIsTakenWhole(t: string, start: nat)
    requires start <= |t| && REGEXES.url(t, start).Some?
    ensures var (i, j) := REGEXES.url(t, start).value;
            start <= i < j <= |t| && IsUrl(t[i..j]) && (j < |t| ==> White(t[j]))
  {
    FoundIsWhole(IsUrl, Greedy, t, start);
    var (i, j) := REGEXES.url(t, start).value;
    if j < |t| && !White(t[j]) {
      LongerUrl(t[i..j], t[j]);
      OneLonger(t, i, j);
    }
  }

  lemma LongerUrl(s: string, c: char)
    requires IsUrl(s) && !White(c)
    ensures IsUrl(s + [c])
  {
    if IsUrlFrom("http://", s) { LongerUrlFrom("http://", s, c); } else { LongerUrlFrom("https://", s, c); }
  }

  lemma LongerUrlFrom(head: string, s: string, c: char)
    requires IsUrlFrom(head, s) && !White(c)
    ensures IsUrlFrom(head, s + [c])
  {
    assert (s + [c])[..|head|] == s[..|head|] && (s + [c])[|head|..] == s[|head|..] + [c];
  }

  /** An e-mail address is taken whole: behind it there is no letter. */
  lemma EmailIsTakenWhole(t: string, start: nat)
    requires start <= |t| && REGEXES.email(t, start).Some?
    ensures var (i, j) := REGEXES.email(t, start).value;
            start <= i < j <= |t| && IsEmail(t[i..j]) && (j < |t| ==> !AsciiLetters([t[j]]))
  {
    FoundIsWhole(IsEmail, Greedy, t, start);
    var (i, j) := REGEXES.email(t, start).value;
    if j < |t| && AsciiLetters([t[j]]) {
      assert t[j] in [t[j]];
      LongerEmail(t[i..j], t[j]);
      OneLonger(t, i, j);
    }
  }

  lemma LongerEmail(s: string, c: char)
    requires IsEmail(s) && AsciiLetters([c])
    ensures IsEmail(s + [c])
  {
    EmailIff(s);
    var a: string, d: string, top: string :| s == Address(a, d, top) && EmailOf(a, d, top);
    assert c in [c];
    EmailJoins(a, d, top + [c]);
    assert s + [c] == Address(a, d, top + [c]);
  }

  /** A phone number is taken whole: behind it there is no digit. */
  lemma PhoneIsTakenWhole(t: string, start: nat)
    requires start <= |t| && REGEXES.phone(t, start).Some?
    ensures var (i, j) := REGEXES.phone(t, start).value;
            start <= i < j <= |t| && IsPhone(t[i..j]) && (j < |t| ==> !('0' <= t[j] <= '9'))
  {
    FoundIsWhole(IsPhone, Greedy, t, start);
    var (i, j) := REGEXES.phone(t, start).value;
    if j < |t| && '0' <= t[j] <= '9' {
      LongerPhone(t[i..j], t[j]);
      OneLonger(t, i, j);
    }
  }

  lemma PhoneSnoc(plus: string, a: string, m: string, z: char, c: char)
    ensures plus + (a + m + [z]) + [c] == plus + (a + (m + [z]) + [c])
  {
  }

  lemma LongerPhone(s: string, c: char)
    requires IsPhone(s) && '0' <= c <= '9'
    ensures IsPhone(s + [c])
  {
    var plus, a, m, z := PhoneParts(s);
    assert PhoneMiddle(m + [z]);
    PhoneJoins(plus, a, m + [z], c);
    PhoneSnoc(plus, [a], m, z, c);
  }

  /** An Ethereum address is forty-two characters, and a private-key block ends with the first end marker that
      can end it. */
  lemma OthersAreTakenWhole(t: string, start: nat)
    requires start <= |t|
    ensures REGEXES.ethAddress(t, start).Some? ==>
              var (i, j) := REGEXES.ethAddress(t, start).value;
              start <= i && j == i + 42 <= |t| && IsEthAddress(t[i..j])
    ensures REGEXES.privateKey(t, start).Some? ==>
              var (i, j) := REGEXES.privateKey(t, start).value;
              start <= i < j <= |t| && KeyBlock.Block(IsBegin, IsEnd)(t[i..j])
              && forall e :: i < e < j ==> !KeyBlock.Block(IsBegin, IsEnd)(t[i..e])
  {
    if REGEXES.ethAddress(t, start).Some? { FoundIsWhole(IsEthAddress, Greedy, t, start); }
    if REGEXES.privateKey(t, start).Some? { FoundIsWhole(KeyBlock.Block(IsBegin, IsEnd), Lazy, t, start); }
  }

  // ---------------------------------------------------------------- URLs are gone

  lemma HeadAndOne(head: string, u: string)
    requires (head == "http://" || head == "https://") && |u| == |head| + 1 && u[..|head|] == head && !White(u[|head|])
    ensures IsUrl(u)
  {
    assert IsUrlFrom(head, u);
  }

  lemma HeadChars(head: string)
    requires head == "http://" || head == "https://"
    ensures 7 <= |head| <= 8 && head[0] == 'h' && forall i :: 0 <= i < |head| ==> head[i] != '<'
  {
  }

  lemma HeadAt(u: string, a: nat, b: nat, head: string, y: nat)
    requires a <= b <= |u| && IsUrlFrom(head, u[a..b]) && a <= y < a + |head|
    ensures y < |u| && u[y] == head[y - a]
  {
    assert u[a..b][..|head|][y - a] == u[a..b][y - a];
  }

  lemma HeadEndsBefore(u: string, a: nat, b: nat, head: string, x: nat)
    requires a <= x < |u| && a <= b <= |u| && u[x] == '<' && IsUrlFrom(head, u[a..b])
    requires forall i :: 0 <= i < |head| ==> head[i] != '<'
    ensures a + |head| <= x
  {
    forall y | a <= y < a + |head| ensures u[y] != '<' { HeadAt(u, a, b, head, y); }
  }

  /** A URL that starts in front of a placeholder started in front of it before. */
  lemma UrlFromGap(t: string, start: nat, i: nat, ph: string, rest: string, head: string, a: nat, b: nat)
    returns (x: nat, y: nat)
    requires start <= i < |t| && !White(t[i]) && |ph| >= 1 && ph[0] == '<'
    requires a < i - start && a <= b <= |t[start..i] + ph + rest|
    requires (head == "http://" || head == "https://") && IsUrlFrom(head, (t[start..i] + ph + rest)[a..b])
    ensures start <= x < i && x <= y <= |t| && IsUrl(t[x..y])
  {
    var g, n := t[start..i], |head|;
    var u := g + ph + rest;
    HeadChars(head);
    assert u[|g|] == '<';
    HeadEndsBefore(u, a, b, head, |g|);
    assert u[a..b][n] == u[a + n] && !White(u[a..b][n..][0]);
    x, y := start + a, start + a + n + 1;
    var v := t[x..y];
    forall k | 0 <= k < n ensures v[k] == head[k] {
      HeadAt(u, a, b, head, a + k);
      assert v[k] == g[a + k] == u[a + k];
    }
    assert v[..n] == head;
    assert v[n] == t[start + a + n] && (a + n < |g| ==> t[start + a + n] == g[a + n] == u[a + n]);
    HeadAndOne(head, v);
  }

  lemma UrlNotInPlaceholder(ph: string, c: char)
    requires IsPlaceholder(ph) && c in ph
    ensures c != 'h'
  {
  }

  /** Replacing every URL leaves none. */
  lemma {:induction false} UrlPassLeavesNone(t: string, start: nat, ph: string -> string)
    requires start <= |t| && MakesPlaceholders(ph) && FindsLeftmost(IsUrl, REGEXES.url)
    ensures Placed(t, start, Spans(REGEXES.url, t, start))
    ensures NoMatch(IsUrl, Rewrite(t, start, Spans(REGEXES.url, t, start), ph))
    decreases |t| - start
  {
    var find := REGEXES.url;
    SpansPlaced(find, t, start);
    assert FindsAt(find, t, start) && LeftmostAt(IsUrl, find, t, start);
    match find(t, start) {
      case None =>
        RestHasNoMatch(IsUrl, t, start);
      case Some(m) =>
        SpansFirst(find, t, start);
        UrlPassLeavesNone(t, m.1, ph);
        RewriteFirst(t, start, Spans(find, t, start), ph);
        FoundIsWhole(IsUrl, Greedy, t, start);
        UrlStart(t, m.0, m.1);
        NoUrlAround(t, start, m.0, ph(t[m.0..m.1]), Rewrite(t, m.1, Spans(find, t, m.1), ph));
    }
  }

  lemma UrlStart(t: string, i: nat, j: nat)
    requires i < j <= |t| && IsUrl(t[i..j])
    ensures t[i] == 'h' && !White(t[i])
  {
    assert t[i..j][0] == t[i];
    if IsUrlFrom("http://", t[i..j]) { assert t[i..j][..7][0] == 'h'; } else { assert t[i..j][..8][0] == 'h'; }
  }

  lemma NoUrlAround(t: string, start: nat, i: nat, ph: string, rest: string)
    requires start <= i < |t| && !White(t[i]) && IsPlaceholder(ph) && NoMatch(IsUrl, rest)
    requires forall x, y :: start <= x < i && x <= y <= |t| ==> !IsUrl(t[x..y])
    ensures NoMatch(IsUrl, t[start..i] + ph + rest)
  {
    var g := t[start..i];
    var u := g + ph + rest;
    forall a: nat, b: nat | a <= b <= |u| && IsUrl(u[a..b])
      ensures !NoMatch(IsUrl, rest) || exists x, y :: start <= x < i && x <= y <= |t| && IsUrl(t[x..y])
    {
      UrlSomewhere(t, start, i, ph, rest, a, b);
    }
  }

  lemma UrlSomewhere(t: string, start: nat, i: nat, ph: string, rest: string, a: nat, b: nat)
    requires start <= i < |t| && !White(t[i]) && IsPlaceholder(ph)
    requires a <= b <= |t[start..i] + ph + rest| && IsUrl((t[start..i] + ph + rest)[a..b])
    ensures !NoMatch(IsUrl, rest) || exists x, y :: start <= x < i && x <= y <= |t| && IsUrl(t[x..y])
  {
    var g := t[start..i];
    var u, n := g + ph + rest, |g| + |ph|;
    assert a < b by { HeadChars("http://"); HeadChars("https://"); }
    UrlStart(u, a, b);
    if a < |g| {
      var head := if IsUrlFrom("http://", u[a..b]) then "http://" else "https://";
      var x, y := UrlFromGap(t, start, i, ph, rest, head, a, b);
    } else if a < n {
      assert u[a] == ph[a - |g|];
      UrlNotInPlaceholder(ph, u[a]);
    } else {
      assert u[a..b] == rest[a - n..b - n];
    }
  }

  lemma {:induction false} LastPassLeavesNoUrl(digest: string -> string, b: Book, t: string, ps: seq<Pass>)
    requires IsDigest(digest) && GoodPasses(ps) && ps != [] && ps[|ps| - 1].find == REGEXES.url
    ensures NoMatch(IsUrl, Redacted(digest, b, t, ps).0)
    decreases |ps|
  {
    assert GoodPass(ps[0]);
    RedactedFirst(digest, b, t, ps);
    if |ps| == 1 {
      NoUrlIsEmpty();
      MatcherIsFaithful(IsUrl, Greedy);
      PhMakesPlaceholders(digest, ps[0].tag);
      UrlPassLeavesNone(t, 0, Ph(digest, ps[0].tag));
    } else {
      LastPassLeavesNoUrl(digest, PassBook(digest, b, t, ps[0]), PassText(digest, t, ps[0]), ps[1..]);
    }
  }

  lemma NoUrlIsEmpty()
    ensures !IsUrl("")
  {
  }

  lemma {:induction false} BlankTermsHaveNoPass(terms: seq<string>)
    requires forall x :: x in terms ==> Blank(x)
    ensures TermPasses(terms) == []
  {
    if terms != [] { BlankTermsHaveNoPass(terms[1..]); }
  }

  /** Strict mode leaves no URL either, when no custom terms are replaced afterwards. */
  lemma StrictLeavesNoUrl(digest: string -> string, b: Book, t: string, terms: seq<string>)
    requires IsDigest(digest) && forall x :: x in terms ==> Blank(x)
    ensures GoodPasses(Passes(Strict, REGEXES, terms))
    ensures var out := Redacted(digest, b, t, Passes(Strict, REGEXES, terms)).0;
            forall i: nat, j: nat, head: string, r: string ::
              i <= j <= |out| && UrlOf(head, r) ==> out[i..j] != head + r
  {
    var ps := Passes(Strict, REGEXES, terms);
    RegexesAreFaithful();
    PassesGood(Strict, REGEXES, terms);
    BlankTermsHaveNoPass(terms);
    assert ps[|ps| - 1].find == REGEXES.url;
    LastPassLeavesNoUrl(digest, b, t, ps);
    var out := Redacted(digest, b, t, ps).0;
    forall i: nat, j: nat, head: string, r: string | i <= j <= |out| && UrlOf(head, r) ensures out[i..j] != head + r {
      UrlIff(out[i..j]);
    }
  }

  // ---------------------------------------------------------------- phone numbers

  lemma PhonesArePlain()
    ensures Plainly(IsPhone)
  {
    forall s | IsPhone(s) ensures BracketFree(s) && s != "" {
      var plus, a, m, z := PhoneParts(s);
      PartsArePlain(plus, a, m, z);
    }
  }

  lemma PartsArePlain(plus: string, a: char, m: string, z: char)
    requires PhoneOf(plus, a, m, z)
    ensures BracketFree(PhoneText(plus, a, m, z)) && PhoneText(plus, a, m, z) != ""
  {
    var s := PhoneText(plus, a, m, z);
    forall i | 0 <= i < |s| ensures s[i] != '<' && s[i] != '>' {
      assert s[i] in plus || s[i] == a || s[i] in m || s[i] == z;
    }
  }

  /** In Basic and Strict modes a phone number that is left lies inside a placeholder, unless a later pass
      cut one: hex digits may look like one. */
  lemma PhoneLeftIsInside(digest: string -> string, b: Book, t: string, mode: RedactMode, terms: seq<string>)
    requires IsDigest(digest) && mode != RedactMode.None && GoodPasses(Passes(mode, REGEXES, terms))
    requires |Passes(mode, REGEXES, terms)| > 3 && UncutAfter(digest, t, Passes(mode, REGEXES, terms), 3)
    ensures AllInside(IsPhone, Redacted(digest, b, t, Passes(mode, REGEXES, terms)).0)
  {
    PhonesArePlain();
    assert !IsPhone("");
    MatcherIsFaithful(IsPhone, Greedy);
    PatternLeftIsInside(IsPhone, digest, b, t, Passes(mode, REGEXES, terms), 3);
  }

  // ---------------------------------------------------------------- what is left alone

  /** A text without secrets, phone numbers, URLs if they are looked for, and terms. */
  ghost predicate NothingToRedact(t: string, mode: RedactMode, terms: seq<string>) {
    && SecretFree(t) && NoMatch(IsPhone, t) && (mode == Strict ==> NoMatch(IsUrl, t))
    && forall x :: x in terms && !Blank(x) ==> !Occurs(x, t)
  }

  lemma {:induction false} TermsFindNothing(t: string, terms: seq<string>)
    requires forall x :: x in terms && !Blank(x) ==> !Occurs(x, t)
    ensures GoodPasses(TermPasses(terms)) && FindsNothing(TermPasses(terms), t)
  {
    TermPassesGood(terms);
    if terms != [] {
      TermsFindNothing(t, terms[1..]);
      if !Blank(terms[0]) {
        TermFindsNothing(t, terms[0]);
        FindsNothingMore(TermPass(terms[0]), TermPasses(terms[1..]), t);
      }
    }
  }

  lemma FindsNothingMore(p: Pass, ps: seq<Pass>, t: string)
    requires GoodPass(p) && Spans(p.find, t, 0) == [] && GoodPasses(ps) && FindsNothing(ps, t)
    ensures GoodPasses([p] + ps) && FindsNothing([p] + ps, t)
  {
  }

  lemma FoundOccurs(x: string, t: string)
    requires FindLiteral(x, t, 0).Some?
    ensures Occurs(x, t)
  {
    FoundIsLiteral(x, t, 0);
    assert At(t, FindLiteral(x, t, 0).value.0, x);
  }

  lemma TermFindsNothing(t: string, x: string)
    requires x != "" && !Occurs(x, t)
    ensures GoodPass(TermPass(x)) && Spans(TermPass(x).find, t, 0) == []
  {
    LiteralFinderFinds(x);
    if FindLiteral(x, t, 0).Some? { FoundOccurs(x, t); }
    AbsentIsUnchanged(t, x, Ph(_ => "", "CUSTOM"));
  }

  lemma RegexesFindNothing(t: string, mode: RedactMode)
    requires SecretFree(t) && NoMatch(IsPhone, t) && (mode == Strict ==> NoMatch(IsUrl, t))
    ensures GoodPasses(RegexPasses(mode, REGEXES)) && FindsNothing(RegexPasses(mode, REGEXES), t)
  {
    SecretFreeIff(t);
    RegexesAreFaithful();
    RegexPassesGood(mode, REGEXES);
    NoBlockIsEmpty();
    MatcherIsFaithful(KeyBlock.Block(IsBegin, IsEnd), Lazy);
    NothingToFind(KeyBlock.Block(IsBegin, IsEnd), REGEXES.privateKey, t);
    NothingToFind(IsApiKey, REGEXES.apiKey, t);
    NothingToFind(IsEmail, REGEXES.email, t);
    NothingToFind(IsPhone, REGEXES.phone, t);
    NothingToFind(IsEthAddress, REGEXES.ethAddress, t);
    if mode == Strict { NothingToFind(IsUrl, REGEXES.url, t); }
  }

  lemma FindsNothingConcat(a: seq<Pass>, b: seq<Pass>, t: string)
    requires GoodPasses(a) && GoodPasses(b) && FindsNothing(a, t) && FindsNothing(b, t)
    ensures GoodPasses(a + b) && FindsNothing(a + b, t)
  {
  }

  /** Redaction leaves such a text, and the table, as they are; and any text when it is off. */
  lemma LeftAlone(digest: string -> string, b: Book, t: string, mode: RedactMode, terms: seq<string>)
    requires mode == RedactMode.None || NothingToRedact(t, mode, terms)
    ensures GoodPasses(Passes(mode, REGEXES, terms)) && Redacted(digest, b, t, Passes(mode, REGEXES, terms)) == (t, b)
  {
    RegexesAreFaithful();
    PassesGood(mode, REGEXES, terms);
    if mode != RedactMode.None {
      RegexesFindNothing(t, mode);
      TermsFindNothing(t, terms);
      FindsNothingConcat(RegexPasses(mode, REGEXES), TermPasses(terms), t);
      NothingRedacted(digest, b, t, Passes(mode, REGEXES, terms));
    }
  }
}
