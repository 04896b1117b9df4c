/** The redactor: one table, grown by every call and never rewritten. */
module LocalRedactor {
  import opened Bytes
  import opened Redaction

  datatype RedactMode = None | Basic | Strict

  /** One matcher for each regular expression. */
  datatype Patterns = Patterns(privateKey: Finder, apiKey: Finder, email: Finder, phone: Finder, ethAddress: Finder,
                               url: Finder)

  ghost predicate GoodPatterns(p: Patterns) {
    && IsFinder(p.privateKey) && IsFinder(p.apiKey) && IsFinder(p.email)
    && IsFinder(p.phone) && IsFinder(p.ethAddress) && IsFinder(p.url)
  }

  /** Unicode white space, what `trim` removes. */
  predicate White(c: char) {
    var n := c as int;
    || 9 <= n <= 13 || n == 32 || n == 0x85 || n == 0xA0 || n == 0x1680 || 0x2000 <= n <= 0x200A
    || n == 0x2028 || n == 0x2029 || n == 0x202F || n == 0x205F || n == 0x3000
  }

  predicate Blank(s: string) { forall i :: 0 <= i < |s| ==> White(s[i]) }

  function TermPass(term: string): Pass { Pass(LiteralFinder(term), Custom, "CUSTOM") }

  function TermPasses(terms: seq<string>): seq<Pass> {
    if terms == [] then []
    else if Blank(terms[0]) then TermPasses(terms[1..])
    else [TermPass(terms[0])] + TermPasses(terms[1..])
  }

  function RegexPasses(mode: RedactMode, p: Patterns): seq<Pass> {
    if mode == RedactMode.None then []
    else
      [Pass(p.privateKey, PrivateKey, "PRIVATE_KEY"), Pass(p.apiKey, ApiKey, "API_KEY"), Pass(p.email, Email, "EMAIL"),
       Pass(p.phone, Phone, "PHONE"), Pass(p.ethAddress, EthAddress, "ETH_ADDR")]
      + if mode == Strict then [Pass(p.url, Url, "URL")] else []
  }

  /** What one call to `Redact` does to a text, in order. */
  function Passes(mode: RedactMode, p: Patterns, terms: seq<string>): seq<Pass> {
    if mode == RedactMode.None then [] else RegexPasses(mode, p) + TermPasses(terms)
  }

  lemma {:induction false} TermPassesGood(terms: seq<string>)
    ensures GoodPasses(TermPasses(terms))
  {
    if terms != [] {
      TermPassesGood(terms[1..]);
      if !Blank(terms[0]) { LiteralFinderFinds(terms[0]); }
    }
  }

  lemma NextTermPass(terms: seq<string>, i: nat)
    requires i < |terms|
    ensures GoodPasses(TermPasses(terms[i + 1..]))
    ensures var (todo, rest) := (TermPasses(terms[i..]), TermPasses(terms[i + 1..]));
            if Blank(terms[i]) then todo == rest else todo != [] && todo[0] == TermPass(terms[i]) && todo[1..] == rest
  {
    assert terms[i..][1..] == terms[i + 1..] && terms[i..][0] == terms[i];
    TermPassesGood(terms[i + 1..]);
  }

  lemma PassesGood(mode: RedactMode, p: Patterns, terms: seq<string>)
    requires GoodPatterns(p)
    ensures GoodPasses(Passes(mode, p, terms)) && GoodPasses(RegexPasses(mode, p))
  {
    TermPassesGood(terms);
    RegexPassesGood(mode, p);
    GoodConcat(RegexPasses(mode, p), TermPasses(terms));
  }

  lemma RegexPassesGood(mode: RedactMode, p: Patterns)
    requires GoodPatterns(p)
    ensures GoodPasses(RegexPasses(mode, p))
  {
  }

  lemma GoodConcat(a: seq<Pass>, b: seq<Pass>)
    requires GoodPasses(a) && GoodPasses(b)
    ensures GoodPasses(a + b)
  {
  }

  // ---------------------------------------------------------------- learning a literal

  /** What one match contributes to the text and to the table. */
  lemma NextMatch(find: Finder, t: string, start: nat, ph: string -> string, b: Book, kind: Kind)
    requires IsFinder(find) && start <= |t| && find(t, start).Some?
    ensures FindsAt(find, t, start)
    ensures var (i, j) := find(t, start).value;
            var m := t[i..j];
            && Placed(t, start, Spans(find, t, start)) && Placed(t, j, Spans(find, t, j))
            && Rewrite(t, start, Spans(find, t, start), ph)
               == (t[start..i] + ph(m)) + Rewrite(t, j, Spans(find, t, j), ph)
            && LearnAll(b, t, start, Spans(find, t, start), ph, kind)
               == LearnAll(Learn(b, ph(m), m, kind), t, j, Spans(find, t, j), ph, kind)
  {
    SpansFirst(find, t, start);
    SpansPlaced(find, t, start);
    RewriteFirst(t, start, Spans(find, t, start), ph);
  }

  /** However often a term occurs, it is learnt once, and not at all when it does not occur. */
  lemma {:induction false} LiteralLearntOnce(b: Book, t: string, start: nat, literal: string, ph: string -> string,
                                             kind: Kind)
    requires literal != [] && start <= |t| && IsFinder(LiteralFinder(literal))
    ensures Placed(t, start, Spans(LiteralFinder(literal), t, start))
    ensures LearnAll(b, t, start, Spans(LiteralFinder(literal), t, start), ph, kind)
         == if FindLiteral(literal, t, start) == Option.None then b else Learn(b, ph(literal), literal, kind)
    decreases |t| - start
  {
    var find := LiteralFinder(literal);
    SpansPlaced(find, t, start);
    assert find(t, start) == FindLiteral(literal, t, start);
    if find(t, start).Some? {
      var m := find(t, start).value;
      SpansFirst(find, t, start);
      FoundIsLiteral(literal, t, start);
      LiteralLearntOnce(Learn(b, ph(literal), literal, kind), t, m.1, literal, ph, kind);
    }
  }

  lemma {:induction false} FoundIsLiteral(literal: string, t: string, start: nat)
    requires FindLiteral(literal, t, start).Some?
    ensures var m := FindLiteral(literal, t, start).value; start <= m.0 <= m.1 <= |t| && t[m.0..m.1] == literal
    decreases if start <= |t| then |t| - start else 0
  {
    if t[start..start + |literal|] != literal { FoundIsLiteral(literal, t, start + 1); }
  }

  lemma AbsentIsUnchanged(t: string, literal: string, ph: string -> string)
    requires literal != [] && IsFinder(LiteralFinder(literal)) && FindLiteral(literal, t, 0) == Option.None
    ensures Spans(LiteralFinder(literal), t, 0) == []
  {
    assert LiteralFinder(literal)(t, 0) == FindLiteral(literal, t, 0);
  }

  /** Any one of the longest. */
  method PickLongest(rest: set<string>) returns (k: string)
    requires rest != {}
    ensures k in rest && forall m :: m in rest ==> ByteLen(m) <= ByteLen(k)
  {
    ghost var longest := LongestExists(rest);
    k :| k in rest && forall m :: m in rest ==> ByteLen(m) <= ByteLen(k);
  }

  /** The keys so far and the rest together are all keys, each once. */
  ghost predicate Taken(keys: seq<string>, rest: set<string>, rev: map<string, string>) {
    && (forall k :: k in rev <==> k in keys || k in rest) && (forall k :: k in rest ==> k !in keys)
    && |keys| + |rest| == |rev| && (forall i, j :: 0 <= i < j < |keys| ==> keys[i] != keys[j])
  }

  /** No key is longer than an earlier one. */
  ghost predicate Falling(keys: seq<string>)
  {
    forall i, j :: 0 <= i < j < |keys| ==> ByteLen(keys[i]) >= ByteLen(keys[j])
  }

  ghost predicate Bounds(keys: seq<string>, rest: set<string>) {
    forall i, k :: 0 <= i < |keys| && k in rest ==> ByteLen(keys[i]) >= ByteLen(k)
  }

  lemma NextTaken(keys: seq<string>, rest: set<string>, rev: map<string, string>, k: string)
    requires Taken(keys, rest, rev) && k in rest
    ensures Taken(keys + [k], rest - {k}, rev)
  {
    var after := keys + [k];
    forall m ensures m in after <==> m in keys || m == k {}
    forall i, j | 0 <= i < j < |after| ensures after[i] != after[j] {
      if j == |keys| { assert after[i] in keys; }
    }
  }

  lemma NextFalling(keys: seq<string>, rest: set<string>, k: string)
    requires Falling(keys) && Bounds(keys, rest) && k in rest && forall m :: m in rest ==> ByteLen(m) <= ByteLen(k)
    ensures Falling(keys + [k]) && Bounds(keys + [k], rest - {k})
  {
  }

  // ---------------------------------------------------------------- the redactor

  class Redactor {
    /** The salted hash. */
    const digest: string -> string
    const patterns: Patterns
    var rev: map<string, string>
    var entries: seq<RedactionEntry>
    var customTerms: seq<string>

    function Known(): Book
      reads this
    {
      Book(rev, entries)
    }

    constructor Load(digest: string -> string, patterns: Patterns, entries: seq<RedactionEntry>,
                     customTerms: seq<string>)
      ensures this.digest == digest && this.patterns == patterns
      ensures Known() == Book(MapOf(entries), entries) && this.customTerms == customTerms
    {
      this.digest, this.patterns := digest, patterns;
      this.entries, this.customTerms := entries, customTerms;
      rev := map[];
      new;
      for i := 0 to |entries|
        invariant rev == MapOf(entries[..i]) && this.entries == entries && this.customTerms == customTerms
      {
        assert entries[..i + 1][..i] == entries[..i];
        rev := rev[entries[i].placeholder := entries[i].original];
      }
      assert entries[..|entries|] == entries;
    }

    /** Loading fails exactly when the salt does not decode to 32 bytes. */
    static method FromState(salt: Option<seq<Byte>>, hash: seq<Byte> -> string -> string, patterns: Patterns,
                            entries: seq<RedactionEntry>, customTerms: seq<string>)
      returns (r: Option<Redactor>)
      ensures r.Some? <==> salt.Some? && |salt.value| == 32
      ensures r.Some? ==>
                && fresh(r.value) && r.value.digest == hash(salt.value) && r.value.patterns == patterns
                && r.value.Known() == Book(MapOf(entries), entries) && r.value.customTerms == customTerms
    {
      if salt.None? || |salt.value| != 32 { return Option.None; }
      var redactor := new Redactor.Load(hash(salt.value), patterns, entries, customTerms);
      return Some(redactor);
    }

    method AddCustomTerm(term: string)
      modifies this`customTerms
      ensures customTerms
           == if Blank(term) || term in old(customTerms) then old(customTerms) else old(customTerms) + [term]
    {
      if Blank(term) { return; }
      if term !in customTerms { customTerms := customTerms + [term]; }
    }

    method UpsertMapping(placeholder: string, original: string, kind: Kind)
      modifies this`rev, this`entries
      ensures Known() == Learn(old(Known()), placeholder, original, kind)
    {
      if placeholder in rev { return; }
      rev := rev[placeholder := original];
      entries := entries + [RedactionEntry(placeholder, original, kind)];
    }

    method RedactRegex(input: string, find: Finder, kind: Kind, tag: string) returns (out: string)
      requires IsFinder(find)
      modifies this`rev, this`entries
      ensures out == PassText(digest, input, Pass(find, kind, tag))
      ensures Known() == PassBook(digest, old(Known()), input, Pass(find, kind, tag))
    {
      var at := 0;
      out := "";
      ghost var ph := Ph(digest, tag);
      SpansPlaced(find, input, 0);
      ghost var text := Rewrite(input, 0, Spans(find, input, 0), ph);
      ghost var book := LearnAll(Known(), input, 0, Spans(find, input, 0), ph, kind);
      while true
        invariant at <= |input| && Placed(input, at, Spans(find, input, at))
        invariant out + Rewrite(input, at, Spans(find, input, at), ph) == text
        invariant LearnAll(Known(), input, at, Spans(find, input, at), ph, kind) == book
        decreases |input| - at
      {
        assert FindsAt(find, input, at);
        var found := find(input, at);
        if found.None? { break; }
        var m := input[found.value.0..found.value.1];
        var placeholder := Placeholder(digest, tag, m);
        NextMatch(find, input, at, ph, Known(), kind);
        Assoc(out, input[at..found.value.0] + placeholder,
              Rewrite(input, found.value.1, Spans(find, input, found.value.1), ph));
        UpsertMapping(placeholder, m, kind);
        out := out + (input[at..found.value.0] + placeholder);
        at := found.value.1;
      }
      assert Spans(find, input, at) == [];
      out := out + input[at..];
    }

    method RedactLiteral(input: string, literal: string, kind: Kind, tag: string) returns (out: string)
      requires literal != []
      modifies this`rev, this`entries
      ensures IsFinder(LiteralFinder(literal))
      ensures out == PassText(digest, input, Pass(LiteralFinder(literal), kind, tag))
      ensures Known() == PassBook(digest, old(Known()), input, Pass(LiteralFinder(literal), kind, tag))
    {
      LiteralFinderFinds(literal);
      LiteralLearntOnce(Known(), input, 0, literal, Ph(digest, tag), kind);
      ReplaceIsRewrite(input, 0, literal, Ph(digest, tag));
      assert input[0..] == input;
      if FindLiteral(literal, input, 0).None? {
        AbsentIsUnchanged(input, literal, Ph(digest, tag));
        return input;
      }
      var placeholder := Placeholder(digest, tag, literal);
      UpsertMapping(placeholder, literal, kind);
      out := Replace(input, literal, placeholder);
    }

    method Redact(text: string, mode: RedactMode, extraTerms: seq<string>) returns (out: string)
      requires GoodPatterns(patterns)
      modifies this`rev, this`entries
      ensures GoodPasses(Passes(mode, patterns, customTerms + extraTerms))
      ensures (out, Known()) == Redacted(digest, old(Known()), text, Passes(mode, patterns, customTerms + extraTerms))
    {
      var terms := customTerms + extraTerms;
      PassesGood(mode, patterns, terms);
      if mode == RedactMode.None { return text; }
      TermPassesGood(terms);
      out := RedactPatterns(text, mode, TermPasses(terms));
      assert TermPasses(terms) == TermPasses(terms[0..]);
      ghost var total := Redacted(digest, Known(), out, TermPasses(terms));
      for i := 0 to |terms|
        invariant GoodPasses(TermPasses(terms[i..]))
        invariant Redacted(digest, Known(), out, TermPasses(terms[i..])) == total
      {
        NextTermPass(terms, i);
        if Blank(terms[i]) { continue; }
        out := RedactLiteral(out, terms[i], Custom, "CUSTOM");
      }
    }

    /** The regular expressions; the terms that follow are `rest`. */
    method RedactPatterns(text: string, mode: RedactMode, ghost rest: seq<Pass>) returns (out: string)
      requires GoodPatterns(patterns) && GoodPasses(rest) && mode != RedactMode.None
      modifies this`rev, this`entries
      ensures GoodPasses(RegexPasses(mode, patterns) + rest)
      ensures Redacted(digest, Known(), out, rest)
           == Redacted(digest, old(Known()), text, RegexPasses(mode, patterns) + rest)
    {
      ghost var todo := RegexPasses(mode, patterns) + rest;
      PassesGood(mode, patterns, []);
      assert GoodPasses(todo);
      RedactedFirst(digest, Known(), text, todo);
      out := RedactRegex(text, patterns.privateKey, PrivateKey, "PRIVATE_KEY");
      RedactedFirst(digest, Known(), out, todo[1..]);
      out := RedactRegex(out, patterns.apiKey, ApiKey, "API_KEY");
      RedactedFirst(digest, Known(), out, todo[1..][1..]);
      out := RedactRegex(out, patterns.email, Email, "EMAIL");
      RedactedFirst(digest, Known(), out, todo[1..][1..][1..]);
      out := RedactRegex(out, patterns.phone, Phone, "PHONE");
      RedactedFirst(digest, Known(), out, todo[1..][1..][1..][1..]);
      out := RedactRegex(out, patterns.ethAddress, EthAddress, "ETH_ADDR");
      ghost var left := todo[1..][1..][1..][1..][1..];
      if mode == Strict {
        RedactedFirst(digest, Known(), out, left);
        out := RedactRegex(out, patterns.url, Url, "URL");
        assert left[1..] == rest;
      } else {
        assert left == rest;
      }
    }

    /** All keys, longest first; which of several equally long ones comes first is not determined. */
    method LongestFirst() returns (keys: seq<string>)
      ensures KeyOrder(keys, rev)
    {
      keys := [];
      var rest := rev.Keys;
      while rest != {}
        invariant Taken(keys, rest, rev) && Falling(keys) && Bounds(keys, rest)
        decreases |rest|
      {
        var k := PickLongest(rest);
        NextTaken(keys, rest, rev, k);
        NextFalling(keys, rest, k);
        keys := keys + [k];
        rest := rest - {k};
      }
    }

    method Rehydrate(text: string) returns (out: string)
      ensures exists keys :: KeyOrder(keys, rev) && out == Sequential(text, keys, rev)
    {
      if rev == map[] {
        assert KeyOrder([], rev) && Sequential(text, [], rev) == text;
        return text;
      }
      var order := LongestFirst();
      out := text;
      for i := 0 to |order|
        invariant Sequential(out, order[i..], rev) == Sequential(text, order, rev)
      {
        assert order[i..][0] == order[i] && order[i..][1..] == order[i + 1..];
        out := ReplaceAll(out, order[i], rev[order[i]]);
      }
      assert KeyOrder(order, rev) && out == Sequential(text, order, rev);
    }
  }
}
