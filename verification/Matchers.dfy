/** The redactor's regular expressions as matchers: leftmost first, then as long, or as short, as they
    can be. They are what the theorems ask of a redactor's patterns. */
module Matchers {
  import opened Bytes
  import opened Redaction
  import opened Leak
  import opened KeyBlock
  import opened LocalRedactor
  import opened RedactorRuns
  import opened Separation

  datatype Greed = Greedy | Lazy

  /** The longest match at `i` that ends at `j` or before. */
  function GreedyEnd(p: Pattern, t: string, i: nat, j: nat): (r: Option<nat>)
    requires i <= j <= |t|
    ensures r.Some? ==> i < r.value <= j && p(t[i..r.value])
    ensures r == Option.None ==> forall e :: i < e <= j ==> !p(t[i..e])
    ensures r.Some? ==> forall e :: r.value < e <= j ==> !p(t[i..e])
    decreases j
  {
    if i == j then Option.None else if p(t[i..j]) then Some(j) else GreedyEnd(p, t, i, j - 1)
  }

  /** The shortest match at `i` that ends at `j` or later. */
  function LazyEnd(p: Pattern, t: string, i: nat, j: nat): (r: Option<nat>)
    requires i < j && i <= |t|
    ensures r.Some? ==> j <= r.value <= |t| && p(t[i..r.value])
    ensures r == Option.None ==> forall e :: j <= e <= |t| ==> !p(t[i..e])
    ensures r.Some? ==> forall e :: j <= e < r.value ==> !p(t[i..e])
    decreases |t| - j
  {
    if j > |t| then Option.None else if p(t[i..j]) then Some(j) else LazyEnd(p, t, i, j + 1)
  }

  /** No longer match begins there, or no shorter one. */
  predicate Whole(p: Pattern, greed: Greed, t: string, i: nat, j: nat)
    requires i <= j <= |t|
  {
    if greed == Greedy then forall e :: j < e <= |t| ==> !p(t[i..e]) else forall e :: i < e < j ==> !p(t[i..e])
  }

  function EndOf(p: Pattern, greed: Greed, t: string, i: nat): (r: Option<nat>)
    requires i <= |t|
    ensures r.Some? ==> i < r.value <= |t| && p(t[i..r.value])
    ensures r == Option.None ==> forall e :: i < e <= |t| ==> !p(t[i..e])
    ensures r.Some? ==> Whole(p, greed, t, i, r.value)
  {
    if greed == Greedy then GreedyEnd(p, t, i, |t|) else LazyEnd(p, t, i, i + 1)
  }

  function Search(p: Pattern, greed: Greed, t: string, start: nat): (r: Option<(nat, nat)>)
    ensures r.Some? ==> start <= r.value.0 < r.value.1 <= |t| && p(t[r.value.0..r.value.1])
    ensures forall i, e :: start <= i < e <= |t| && p(t[i..e]) ==> r.Some? && r.value.0 <= i
    ensures r.Some? ==> Whole(p, greed, t, r.value.0, r.value.1)
    decreases |t| - start
  {
    if start >= |t| then Option.None
    else match EndOf(p, greed, t, start)
    case Some(e) => Some((start, e))
    case None => Search(p, greed, t, start + 1)
  }

  function Matcher(p: Pattern, greed: Greed): Finder { (t: string, start: nat) => Search(p, greed, t, start) }

  lemma MatcherIsFaithful(p: Pattern, greed: Greed)
    requires !p("")
    ensures FindsLeftmost(p, Matcher(p, greed)) && FindsOnly(p, Matcher(p, greed))
  {
    var find := Matcher(p, greed);
    forall t: string, start: nat | start <= |t| ensures FindsAt(find, t, start) {
      assert find(t, start) == Search(p, greed, t, start);
    }
    forall t: string, start: nat | start <= |t| ensures LeftmostAt(p, find, t, start)
      && FoundMatches(p, find, t, start) {
      assert FindsAt(find, t, start) && find(t, start) == Search(p, greed, t, start);
      forall i | 0 <= i <= |t| ensures !p(t[i..i]) { assert t[i..i] == ""; }
    }
  }

  // ---------------------------------------------------------------- the expressions

  predicate PhoneChar(c: char) { Digit(c) || White(c) || c in "-()" }

  /** What follows the plus: a digit, at least seven digits, blanks, hyphens or parentheses, a digit. */
  predicate PhoneDigits(n: string) {
    |n| >= 9 && Digit(n[0]) && Digit(n[|n| - 1]) && forall i :: 0 < i < |n| - 1 ==> PhoneChar(n[i])
  }

  predicate IsPhone(s: string) { PhoneDigits(if s != [] && s[0] == '+' then s[1..] else s) }

  predicate NoBlank(s: string) { forall i :: 0 <= i < |s| ==> !White(s[i]) }

  predicate IsUrlFrom(head: string, s: string) { |s| > |head| && s[..|head|] == head && NoBlank(s[|head|..]) }

  /** `http://` or `https://`, and at least one character, none of them blank. */
  predicate IsUrl(s: string) { IsUrlFrom("http://", s) || IsUrlFrom("https://", s) }

  const REGEXES: Patterns := Patterns(Matcher(KeyBlock.Block(IsBegin, IsEnd), Lazy), Matcher(IsApiKey, Greedy),
                                      Matcher(IsEmail, Greedy), Matcher(IsPhone, Greedy), Matcher(IsEthAddress, Greedy),
                                      Matcher(IsUrl, Greedy))

  lemma NoBlockIsEmpty()
    ensures !KeyBlock.Block(IsBegin, IsEnd)("")
  {
    var e := "";
    forall i, j | 0 <= i <= j <= |e| ensures !Marked(IsBegin, IsEnd, e, i, j) { assert e[..i] == e; }
  }

  lemma BlocksAreFound(find: Finder)
    requires FindsOnly(KeyBlock.Block(IsBegin, IsEnd), find) && FindsLeftmost(KeyBlock.Block(IsBegin, IsEnd), find)
    ensures FindsBlocks(IsBegin, IsEnd, find)
  {
    forall t: string, start: nat | start <= |t| ensures FoundIsBlock(IsBegin, IsEnd, find, t, start) {
      assert FindsAt(find, t, start) && FoundMatches(KeyBlock.Block(IsBegin, IsEnd), find, t, start);
    }
  }

  /** The redactor's own expressions satisfy what the redaction theorems ask of them. */
  lemma RegexesAreFaithful()
    ensures FaithfulPatterns(REGEXES) && GoodPatterns(REGEXES)
    ensures FindsOnly(IsApiKey, REGEXES.apiKey) && FindsOnly(IsEmail, REGEXES.email)
    ensures FindsOnly(IsEthAddress, REGEXES.ethAddress) && FindsOnly(IsPhone, REGEXES.phone)
            && FindsOnly(IsUrl, REGEXES.url)
  {
    NoBlockIsEmpty();
    MatcherIsFaithful(KeyBlock.Block(IsBegin, IsEnd), Lazy);
    BlocksAreFound(REGEXES.privateKey);
    MatcherIsFaithful(IsApiKey, Greedy);
    MatcherIsFaithful(IsEmail, Greedy);
    MatcherIsFaithful(IsPhone, Greedy);
    MatcherIsFaithful(IsEthAddress, Greedy);
    MatcherIsFaithful(IsUrl, Greedy);
  }

  // ---------------------------------------------------------------- finding nothing, and finding one

  lemma NothingToFind(p: Pattern, find: Finder, t: string)
    requires FindsOnly(p, find) && NoMatch(p, t)
    ensures Spans(find, t, 0) == []
  {
    assert FindsAt(find, t, 0) && FoundMatches(p, find, t, 0);
  }

  /** A match needs its mark. */
  lemma NoMarkNoMatch(p: Pattern, mark: char, t: string)
    requires (forall s :: p(s) ==> mark in s) && mark !in t
    ensures NoMatch(p, t)
  {
    forall i, j | 0 <= i <= j <= |t| ensures !p(t[i..j]) {
      forall k | 0 <= k < j - i ensures t[i..j][k] != mark { assert t[i..j][k] == t[i + k]; }
    }
  }

  /** One match, and none before it or after it. */
  lemma FindsOneMatch(p: Pattern, t: string, i: nat, j: nat)
    requires !p("") && i < j <= |t| && p(t[i..j])
    requires forall k, e :: 0 <= k < i && k < e <= |t| ==> !p(t[k..e])
    requires forall e :: j < e <= |t| ==> !p(t[i..e])
    requires forall k, e :: j <= k < e <= |t| ==> !p(t[k..e])
    ensures IsFinder(Matcher(p, Greedy)) && Spans(Matcher(p, Greedy), t, 0) == [(i, j)]
  {
    var find := Matcher(p, Greedy);
    MatcherIsFaithful(p, Greedy);
    GreedyIsLongest(p, t, i, j, |t|);
    SearchSkips(p, t, 0, i);
    assert find(t, 0) == Search(p, Greedy, t, 0) == Some((i, j));
    SpansFirst(find, t, 0);
    assert find(t, j) == Search(p, Greedy, t, j) == Option.None;
    assert Spans(find, t, j) == [];
  }

  lemma {:induction false} GreedyIsLongest(p: Pattern, t: string, i: nat, j: nat, from: nat)
    requires i < j <= from <= |t| && p(t[i..j]) && forall e :: j < e <= |t| ==> !p(t[i..e])
    ensures GreedyEnd(p, t, i, from) == Some(j)
    decreases from
  {
    if from > j { GreedyIsLongest(p, t, i, j, from - 1); }
  }

  lemma {:induction false} SearchSkips(p: Pattern, t: string, start: nat, i: nat)
    requires start <= i < |t| && forall k, e :: start <= k < i && k < e <= |t| ==> !p(t[k..e])
    ensures Search(p, Greedy, t, start) == Search(p, Greedy, t, i)
    decreases i - start
  {
    if start < i {
      assert EndOf(p, Greedy, t, start) == Option.None;
      SearchSkips(p, t, start + 1, i);
    }
  }
}
